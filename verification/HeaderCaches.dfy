/**
  The cache of headers kept across separation searches: a list ordered by use and a map into
  it, holding the most recently used headers up to a limit.
 */
module HeaderCaches {
  import opened BlockTree
  import opened SplitState

  datatype Key = Key(branch: Branch, hash: Hash)

  // ---- recency, as a value

  /** s with the first x taken out, if there is one. */
  function Without<T(==)>(s: seq<T>, x: T): seq<T>
    decreases |s|
  {
    if s == [] then [] else if s[0] == x then s[1..] else [s[0]] + Without(s[1..], x)
  }

  /** The keys touched so far, each once, most recently touched first. */
  function Recency<T(==)>(touches: seq<T>): seq<T>
    decreases |touches|
  {
    if touches == [] then []
    else
      var last := touches[|touches| - 1];
      [last] + Without(Recency(touches[..|touches| - 1]), last)
  }

  /** The distinct other keys touched since k was last touched. */
  function OthersSince<T(==)>(touches: seq<T>, k: T): set<T>
    decreases |touches|
  {
    if touches == [] || touches[|touches| - 1] == k then {}
    else OthersSince(touches[..|touches| - 1], k) + {touches[|touches| - 1]}
  }

  ghost predicate Distinct<T(!new)>(s: seq<T>) {
    forall i, j :: 0 <= i < j < |s| ==> s[i] != s[j]
  }

  function Take<T>(s: seq<T>, n: nat): seq<T> {
    if n < |s| then s[..n] else s
  }

  function Elements<T>(s: seq<T>): set<T> {
    set x | x in s
  }

  lemma {:induction false} RecencyFacts<T(!new)>(touches: seq<T>)
    ensures Distinct(Recency(touches))
    ensures Elements(Recency(touches)) == Elements(touches)
    decreases |touches|
  {
    if touches != [] {
      var n := |touches| - 1;
      RecencyFacts(touches[..n]);
      var r := Recency(touches[..n]);
      WithoutFacts(r, touches[n]);
      assert touches == touches[..n] + [touches[n]];
      assert Elements(touches) == Elements(touches[..n]) + {touches[n]};
      assert Elements([touches[n]] + Without(r, touches[n])) == {touches[n]} + Elements(Without(r, touches[n]));
    }
  }

  /** Taking out an element leaves what stands before and after it. */
  lemma {:induction false} WithoutAt<T>(s: seq<T>, i: nat)
    requires i < |s| && s[i] !in s[..i]
    ensures Without(s, s[i]) == s[..i] + s[i + 1..]
    decreases |s|
  {
    if i > 0 {
      assert s[0] in s[..i];
      assert s[1..][..i - 1] == s[..i][1..];
      WithoutAt(s[1..], i - 1);
    }
  }

  lemma {:induction false} WithoutAbsent<T>(s: seq<T>, x: T)
    requires x !in s
    ensures Without(s, x) == s
    decreases |s|
  {
    if s != [] {
      WithoutAbsent(s[1..], x);
    }
  }

  lemma WithoutFacts<T(!new)>(s: seq<T>, x: T)
    requires Distinct(s)
    ensures Distinct(Without(s, x))
    ensures x !in Without(s, x)
    ensures Elements(Without(s, x)) == Elements(s) - {x}
  {
    if i :| 0 <= i < |s| && s[i] == x {
      WithoutAt(s, i);
      SkipFacts(s, i);
    } else {
      WithoutAbsent(s, x);
    }
  }

  lemma SkipFacts<T(!new)>(s: seq<T>, i: nat)
    requires Distinct(s) && i < |s|
    ensures var r := s[..i] + s[i + 1..];
            Distinct(r) && s[i] !in r && Elements(r) == Elements(s) - {s[i]}
  {
    assert s == s[..i] + [s[i]] + s[i + 1..];
  }

  lemma {:induction false} DistinctSize<T(!new)>(s: seq<T>)
    requires Distinct(s)
    ensures |Elements(s)| == |s|
  {
    if s != [] {
      DistinctSize(s[1..]);
      assert Elements(s) == {s[0]} + Elements(s[1..]);
    }
  }

  /** A key's place in order of recency is the number of other keys touched since. */
  lemma {:induction false} RecencyRank<T(!new)>(touches: seq<T>, k: T) returns (i: nat)
    requires k in touches
    ensures i < |Recency(touches)| && Recency(touches)[i] == k
    ensures Elements(Recency(touches)[..i]) == OthersSince(touches, k)
    ensures i == |OthersSince(touches, k)|
    decreases |touches|
  {
    var n := |touches| - 1;
    var last, init := touches[n], touches[..n];
    RecencyFacts(touches);
    if last == k {
      i := 0;
    } else {
      assert touches == init + [last];
      var j := RecencyRank(init, k);
      RecencyFacts(init);
      i := RankShifts(Recency(init), j, last);
    }
    DistinctSize(Recency(touches)[..i]);
  }

  lemma ElementsConcat<T(!new)>(a: seq<T>, b: seq<T>)
    ensures Elements(a + b) == Elements(a) + Elements(b)
  {}

  lemma FrontFromBefore<T(!new)>(r: seq<T>, m: nat, j: nat)
    requires m < j < |r|
    ensures var r' := [r[m]] + (r[..m] + r[m + 1..]);
            r'[j] == r[j] && Elements(r'[..j]) == Elements(r[..j])
  {
    var r' := [r[m]] + (r[..m] + r[m + 1..]);
    assert r'[..j] == [r[m]] + (r[..m] + r[m + 1..j]);
    assert r[..j] == r[..m] + ([r[m]] + r[m + 1..j]);
    ElementsConcat([r[m]], r[..m] + r[m + 1..j]);
    ElementsConcat(r[..m], r[m + 1..j]);
    ElementsConcat(r[..m], [r[m]] + r[m + 1..j]);
    ElementsConcat([r[m]], r[m + 1..j]);
  }

  lemma FrontFromBehind<T(!new)>(r: seq<T>, j: nat, last: T, rest: seq<T>)
    requires j < |r| && |rest| > j && rest[..j + 1] == r[..j + 1]
    ensures ([last] + rest)[j + 1] == r[j]
    ensures Elements(([last] + rest)[..j + 1]) == Elements(r[..j]) + {last}
  {
    assert ([last] + rest)[..j + 1] == [last] + rest[..j + 1][..j];
    assert r[..j + 1][..j] == r[..j];
    ElementsConcat([last], r[..j]);
  }

  /** Moving one key to the front pushes another back exactly if it was not in front of it already. */
  lemma RankShifts<T(!new)>(r: seq<T>, j: nat, last: T) returns (i: nat)
    requires Distinct(r) && j < |r| && r[j] != last
    ensures var r' := [last] + Without(r, last);
            i < |r'| && r'[i] == r[j] && Elements(r'[..i]) == Elements(r[..j]) + {last}
  {
    if m :| 0 <= m < |r| && r[m] == last {
      WithoutAt(r, m);
      if m < j {
        FrontFromBefore(r, m, j);
        assert last in r[..j];
        return j;
      } else {
        FrontFromBehind(r, j, last, r[..m] + r[m + 1..]);
        return j + 1;
      }
    } else {
      WithoutAbsent(r, last);
      FrontFromBehind(r, j, last, r);
      return j + 1;
    }
  }

  /** Touching a held key moves it to the front of what is held. */
  lemma TouchHeld<T(!new)>(touches: seq<T>, limit: nat, k: T)
    requires k in Take(Recency(touches), limit)
    ensures Take(Recency(touches + [k]), limit) == [k] + Without(Take(Recency(touches), limit), k)
  {
    assert (touches + [k])[..|touches|] == touches;
    RecencyFacts(touches);
    MoveWithin(Recency(touches), limit, k);
  }

  lemma MoveWithin<T(!new)>(r: seq<T>, limit: nat, k: T)
    requires Distinct(r) && k in Take(r, limit)
    ensures Take([k] + Without(r, k), limit) == [k] + Without(Take(r, limit), k)
  {
    var held := Take(r, limit);
    var i :| 0 <= i < |held| && held[i] == k;
    WithoutAt(r, i);
    WithoutAt(held, i);
    if limit < |r| {
      TakeOfMoved(r, limit, i);
    }
  }

  lemma TakeOfMoved<T>(r: seq<T>, limit: nat, i: nat)
    requires i < limit < |r|
    ensures var held := r[..limit];
            ([r[i]] + (r[..i] + r[i + 1..]))[..limit] == [r[i]] + (held[..i] + held[i + 1..])
  {
    var held := r[..limit];
    var moved, taken := [r[i]] + (r[..i] + r[i + 1..]), [r[i]] + (held[..i] + held[i + 1..]);
    forall j | 0 <= j < limit ensures moved[j] == taken[j] {
      if j > i {
        assert moved[j] == r[j] && taken[j] == held[j];
      } else if j > 0 {
        assert moved[j] == r[j - 1] && taken[j] == held[j - 1];
      }
    }
  }

  /** Touching a key not held puts it in front and leaves out the last if there is no room. */
  lemma TouchMissing<T(!new)>(touches: seq<T>, limit: nat, k: T)
    requires limit > 0 && k !in Take(Recency(touches), limit)
    ensures Take(Recency(touches + [k]), limit) == Take([k] + Take(Recency(touches), limit), limit)
  {
    assert (touches + [k])[..|touches|] == touches;
    RecencyFacts(touches);
    PushBefore(Recency(touches), limit, k);
  }

  lemma PushBefore<T(!new)>(r: seq<T>, limit: nat, k: T)
    requires limit > 0 && Distinct(r) && k !in Take(r, limit)
    ensures Take([k] + Without(r, k), limit) == Take([k] + Take(r, limit), limit)
  {
    if k in r {
      var i :| 0 <= i < |r| && r[i] == k;
      var held := Take(r, limit);
      assert forall j :: 0 <= j < |held| ==> r[j] == held[j];
      WithoutAt(r, i);
    } else {
      WithoutAbsent(r, k);
    }
  }

  // ---- the cache itself

  class Entry {
    const key: Key
    var meta: BlockMeta

    constructor (key: Key, meta: BlockMeta)
      ensures this.key == key && this.meta == meta
    {
      this.key, this.meta := key, meta;
    }
  }

  function Keys(entries: seq<Entry>): seq<Key> {
    seq(|entries|, i requires 0 <= i < |entries| => entries[i].key)
  }

  const DEFAULT_CACHE_SIZE := 10000

  /** The map holds exactly the listed entries, each under its own key. */
  ghost predicate Matches(order: seq<Entry>, items: map<Key, Entry>) {
    && (forall e :: e in order ==> e.key in items && items[e.key] == e)
    && (forall k :: k in items ==> items[k] in order && items[k].key == k)
  }

  class HeaderCache {
    const limit: nat
    var order: seq<Entry>
    var items: map<Key, Entry>
    /** Every key put, or got and found, so far. */
    ghost var touches: seq<Key>

    /** The cache and every entry it ever made. */
    ghost var Repr: set<object>

    /** List and map agree, and hold the most recently touched keys, as many as the limit allows. */
    ghost predicate Valid()
      reads this
    {
      && this in Repr
      && (forall k :: k in items ==> items[k] in Repr)
      && limit > 0
      && Matches(order, items)
      && Distinct(Keys(order))
      && Keys(order) == Take(Recency(touches), limit)
    }

    /** What is remembered, by key. */
    ghost function Contents(): (m: map<Key, BlockMeta>)
      requires Valid()
      reads this, Repr
    {
      map k | k in items :: items[k].meta
    }

    constructor (requested: int)
      ensures Valid() && limit == (if requested <= 0 then 10000 else requested)
      ensures touches == [] && Contents() == map[] && fresh(Repr)
    {
      limit := if requested <= 0 then DEFAULT_CACHE_SIZE else requested;
      order, items, touches, Repr := [], map[], [], {this};
    }

    method Get(branch: Branch, h: Hash) returns (found: bool, meta: BlockMeta)
      requires Valid()
      modifies this
      ensures Valid() && items == old(items) && Repr == old(Repr)
      ensures found <==> Key(branch, h) in items
      ensures found ==> meta == Contents()[Key(branch, h)]
      ensures touches == if found then old(touches) + [Key(branch, h)] else old(touches)
    {
      meta := BlockMeta(h, 0, h, 0);
      if Key(branch, h) !in items {
        return false, meta;
      }
      var el := items[Key(branch, h)];
      MoveToFront(el);
      return true, el.meta;
    }

    method MoveToFront(el: Entry)
      requires Valid() && el in order
      modifies this
      ensures Valid() && items == old(items) && Repr == old(Repr) && touches == old(touches) + [el.key]
    {
      MovedKeys(order, items, touches, limit, el);
      order := [el] + Without(order, el);
      touches := touches + [el.key];
    }

    /** The new contents are the old with the header put in; which key makes way for it, Valid and touches decide. */
    method Put(branch: Branch, meta: BlockMeta)
      requires Valid()
      modifies Repr
      ensures Valid() && fresh(Repr - old(Repr))
      ensures touches == old(touches) + [Key(branch, meta.hash)]
      ensures Key(branch, meta.hash) in items
      ensures forall k :: k in items ==>
                k in old(Contents())[Key(branch, meta.hash) := meta]
                && Contents()[k] == old(Contents())[Key(branch, meta.hash) := meta][k]
    {
      var key := Key(branch, meta.hash);
      if key in items {
        var el := items[key];
        el.meta := meta;
        MoveToFront(el);
        return;
      }
      var el := new Entry(key, meta);
      PushedKeys(order, items, touches, limit, el);
      order := [el] + order;
      items := items[key := el];
      touches := touches + [key];
      Repr := Repr + {el};
      ghost var pushed := order;
      EvictOverflow();
      TakeKeys(pushed, limit);
      assert order[0] == el;
    }

    /** Drops the least recently used until the rest fit. */
    method EvictOverflow()
      requires limit > 0 && Matches(order, items) && Distinct(Keys(order))
      modifies this`order, this`items
      ensures order == Take(old(order), limit)
      ensures Matches(order, items)
      ensures forall k :: k in items ==> k in old(items) && items[k] == old(items)[k]
    {
      while |order| > limit
        invariant |order| >= limit || order == old(order)
        invariant order <= old(order)
        invariant Matches(order, items)
        invariant forall k :: k in items ==> k in old(items) && items[k] == old(items)[k]
      {
        assert Keys(order) == Keys(old(order))[..|order|];
        DropLast(order, items);
        var oldest := order[|order| - 1];
        order := order[..|order| - 1];
        items := items - {oldest.key};
      }
    }
  }

  lemma TakeKeys(entries: seq<Entry>, n: nat)
    ensures Keys(Take(entries, n)) == Take(Keys(entries), n)
    ensures Distinct(Keys(entries)) ==> Distinct(Keys(Take(entries, n)))
  {}

  lemma KeysSkip(entries: seq<Entry>, i: nat)
    requires i < |entries|
    ensures Keys(entries[..i] + entries[i + 1..]) == Keys(entries)[..i] + Keys(entries)[i + 1..]
  {}

  lemma KeysWithout(entries: seq<Entry>, i: nat)
    requires i < |entries| && Distinct(Keys(entries))
    ensures Without(entries, entries[i]) == entries[..i] + entries[i + 1..]
    ensures Without(Keys(entries), entries[i].key) == Keys(entries[..i] + entries[i + 1..])
  {
    var keys := Keys(entries);
    var el := entries[i];
    assert keys[i] == el.key;
    assert el !in entries[..i] by {
      forall j | 0 <= j < i ensures entries[j] != el {
        assert keys[j] == entries[j].key;
      }
    }
    KeysSkip(entries, i);
    WithoutAt(entries, i);
    WithoutAt(keys, i);
  }

  lemma SameEntries(order: seq<Entry>, moved: seq<Entry>, items: map<Key, Entry>)
    requires Matches(order, items) && Elements(order) == Elements(moved)
    ensures Matches(moved, items)
  {
    forall e: Entry ensures e in moved <==> e in order {
      assert e in Elements(order) <==> e in Elements(moved);
    }
  }

  lemma KeysCons(el: Entry, rest: seq<Entry>)
    ensures Keys([el] + rest) == [el.key] + Keys(rest)
  {}

  lemma FrontKeepsEntries(order: seq<Entry>, i: nat)
    requires i < |order|
    ensures Elements([order[i]] + (order[..i] + order[i + 1..])) == Elements(order)
  {
    assert order == order[..i] + [order[i]] + order[i + 1..];
  }

  lemma MovedKeys(order: seq<Entry>, items: map<Key, Entry>, touches: seq<Key>, limit: nat, el: Entry)
    requires Matches(order, items) && el in order && Distinct(Keys(order))
    requires Keys(order) == Take(Recency(touches), limit)
    ensures var moved := [el] + Without(order, el);
            && Matches(moved, items)
            && Distinct(Keys(moved))
            && Keys(moved) == Take(Recency(touches + [el.key]), limit)
  {
    var i :| 0 <= i < |order| && order[i] == el;
    var rest := order[..i] + order[i + 1..];
    KeysWithout(order, i);
    assert Keys(order)[i] == el.key;
    TouchHeld(touches, limit, el.key);
    KeysCons(el, rest);
    WithoutFacts(Keys(order), el.key);
    FrontKeepsEntries(order, i);
    SameEntries(order, [el] + rest, items);
  }

  lemma PushedKeys(order: seq<Entry>, items: map<Key, Entry>, touches: seq<Key>, limit: nat, el: Entry)
    requires limit > 0 && Matches(order, items) && el.key !in items && Distinct(Keys(order))
    requires Keys(order) == Take(Recency(touches), limit)
    ensures var pushed := [el] + order;
            && Matches(pushed, items[el.key := el])
            && Distinct(Keys(pushed))
            && Take(Keys(pushed), limit) == Take(Recency(touches + [el.key]), limit)
  {
    KeysCons(el, order);
    PushedMatches(order, items, el);
    PushedDistinct(order, items, el);
    TouchMissing(touches, limit, el.key);
  }

  lemma PushedMatches(order: seq<Entry>, items: map<Key, Entry>, el: Entry)
    requires Matches(order, items) && el.key !in items
    ensures Matches([el] + order, items[el.key := el])
  {
    forall e | e in [el] + order ensures e.key in items[el.key := el] && items[el.key := el][e.key] == e {
      assert e == el || e in order;
    }
  }

  lemma PushedDistinct(order: seq<Entry>, items: map<Key, Entry>, el: Entry)
    requires Matches(order, items) && el.key !in items && Distinct(Keys(order))
    ensures el.key !in Keys(order) && Distinct(Keys([el] + order))
  {
    forall k | k in Keys(order) ensures k in items {
      var i :| 0 <= i < |order| && Keys(order)[i] == k;
      assert order[i] in order;
    }
    KeysCons(el, order);
  }

  lemma DropLast(order: seq<Entry>, items: map<Key, Entry>)
    requires order != [] && Matches(order, items)
    ensures var n := |order| - 1;
            Distinct(Keys(order)) ==> Matches(order[..n], items - {order[n].key})
  {
    var n := |order| - 1;
    if Distinct(Keys(order)) {
      forall e | e in order[..n] ensures e.key != order[n].key {
        var i :| 0 <= i < n && order[i] == e;
        assert Keys(order)[i] != Keys(order)[n];
      }
    }
  }

  /** The cache is a true LRU: a key is held exactly when fewer than limit others were touched since it was. */
  lemma HeldIffRecent(cache: HeaderCache, k: Key)
    requires cache.Valid()
    ensures k in cache.items <==> k in cache.touches && |OthersSince(cache.touches, k)| < cache.limit
  {
    HeldIffListed(cache.order, cache.items, k);
    RecencyFacts(cache.touches);
    var r := Recency(cache.touches);
    assert k in Elements(r) <==> k in Elements(cache.touches);
    if k in cache.touches {
      var i := RecencyRank(cache.touches, k);
      if i < cache.limit {
        assert Take(r, cache.limit)[i] == k;
      } else {
        assert forall j :: 0 <= j < |r| && r[j] == k ==> j == i;
      }
    }
  }

  lemma HeldIffListed(order: seq<Entry>, items: map<Key, Entry>, k: Key)
    requires Matches(order, items)
    ensures k in items <==> k in Keys(order)
  {
    if k in items {
      var i :| 0 <= i < |order| && order[i] == items[k];
      assert Keys(order)[i] == k;
    }
  }
}
