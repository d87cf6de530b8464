/** Exactly when a resolution is refused by the unique index, whatever keys it names. */
module AlertCollisions {
  import opened Options
  import opened AlertTable
  import opened AlertRuns

  /** Another row has this key, and is not one of those closed under the keys gone before. */
  predicate Taken(rows: seq<Row>, i: int, key: string, before: seq<string>) {
    exists j :: 0 <= j < |rows| && j != i && rows[j].key == key && !(rows[j].tier != Resolved && rows[j].key in before)
  }

  /** Row i stands under the t-th key, named for the first time, and the key it would be retired to is taken. */
  predicate Blocks(rows: seq<Row>, keys: seq<string>, t: int, i: int) {
    && 0 <= t < |keys| && 0 <= i < |rows|
    && rows[i].tier != Resolved && rows[i].key == keys[t] && keys[t] !in keys[..t]
    && Taken(rows, i, ClosedKey(rows[i]), keys[..t])
  }

  lemma LaterKeys(keys: seq<string>, t: nat, key: string)
    requires 1 <= t <= |keys|
    ensures key in keys[..t] <==> key == keys[0] || key in keys[1..][..t - 1]
  {
    assert keys[..t] == [keys[0]] + keys[1..][..t - 1];
  }

  /** Nothing stands under the first key: it makes no difference. */
  lemma BlocksWithout(rows: seq<Row>, keys: seq<string>, t: nat, i: nat)
    requires Valid(rows) && 1 <= t < |keys| && i < |rows| && FindStanding(rows, keys[0]).None?
    ensures Blocks(rows, keys, t, i) <==> Blocks(rows, keys[1..], t - 1, i)
  {
    forall j: nat | j < |rows| ensures rows[j].tier != Resolved ==> rows[j].key != keys[0] {
      StandingRow(rows, j, keys[0]);
    }
    LaterKeys(keys, t, keys[t]);
    SameTaken(rows, i, keys, t);
  }

  lemma SameTaken(rows: seq<Row>, i: int, keys: seq<string>, t: nat)
    requires 0 <= i < |rows| && 1 <= t <= |keys|
    requires forall j :: 0 <= j < |rows| && rows[j].tier != Resolved ==> rows[j].key != keys[0]
    ensures Taken(rows, i, ClosedKey(rows[i]), keys[..t]) <==> Taken(rows, i, ClosedKey(rows[i]), keys[1..][..t - 1])
  {
    forall j | 0 <= j < |rows| ensures rows[j].key in keys[..t] <==> rows[j].key == keys[0] || rows[j].key in keys[1..][..t - 1] {
      LaterKeys(keys, t, rows[j].key);
    }
  }

  /** The row under the first key has been retired: what blocks later is what blocked before. */
  lemma BlocksAfter(rows: seq<Row>, at: int, keys: seq<string>, k: nat, t: nat, i: nat)
    requires Valid(rows) && 1 <= t < |keys| && i < |rows| && k < |rows| && FindStanding(rows, keys[0]) == Some(k)
    requires Valid(rows[k := Retired(rows[k], at)])
    ensures Blocks(rows, keys, t, i) <==> Blocks(rows[k := Retired(rows[k], at)], keys[1..], t - 1, i)
  {
    LaterKeys(keys, t, keys[t]);
    if i != k {
      TakenAfter(rows, at, keys, k, t, i);
    } else {
      assert keys[0] in keys[..t];
    }
  }

  lemma TakenAfter(rows: seq<Row>, at: int, keys: seq<string>, k: nat, t: nat, i: nat)
    requires Valid(rows) && 1 <= t < |keys| && i < |rows| && k < |rows| && i != k
    requires rows[k].key == keys[0] && rows[k].tier != Resolved
    ensures Taken(rows, i, ClosedKey(rows[i]), keys[..t])
       <==> Taken(rows[k := Retired(rows[k], at)], i, ClosedKey(rows[i]), keys[1..][..t - 1])
  {
    var next := rows[k := Retired(rows[k], at)];
    ClosedKeysDiffer(rows[i], rows[k]);
    forall j | 0 <= j < |rows| ensures rows[j].key in keys[..t] <==> rows[j].key == keys[0] || rows[j].key in keys[1..][..t - 1] {
      LaterKeys(keys, t, rows[j].key);
    }
    forall j | 0 <= j < |rows| && j != k ensures rows[j].key != keys[0] && next[j] == rows[j] {}
  }

  lemma ClosedKeysDiffer(r: Row, s: Row)
    requires r.id != s.id
    ensures ClosedKey(r) != ClosedKey(s)
  {
    ClosedKeyIsClosed(r);
    ClosedKeyIsClosed(s);
    if ClosedKey(r) == ClosedKey(s) {
      ClosedByOne(ClosedKey(r), r.id, s.id);
    }
  }

  lemma FirstBlocks(rows: seq<Row>, keys: seq<string>, i: nat)
    requires Valid(rows) && keys != [] && i < |rows|
    ensures Blocks(rows, keys, 0, i) <==>
              FindStanding(rows, keys[0]) == Some(i) && Taken(rows, i, ClosedKey(rows[i]), [])
  {
    StandingRow(rows, i, keys[0]);
    assert keys[..0] == [];
  }

  /** With a lead waiting, retiring the rest fails exactly when some row blocks. */
  lemma {:induction false} RetiringFailsIff(rows: seq<Row>, at: int, keys: seq<string>, lead: nat)
    requires Valid(rows) && lead < |rows|
    ensures RetireAll(rows, at, keys, Some(lead)).None? <==> exists t, i :: Blocks(rows, keys, t, i)
    decreases |keys|
  {
    if keys != [] {
      forall i: nat | i < |rows|
        ensures Blocks(rows, keys, 0, i) <==>
                  FindStanding(rows, keys[0]) == Some(i) && Taken(rows, i, ClosedKey(rows[i]), [])
      {
        FirstBlocks(rows, keys, i);
      }
      match FindStanding(rows, keys[0]) {
        case None =>
          RetiringFailsIff(rows, at, keys[1..], lead);
          forall t: nat, i: nat | 1 <= t < |keys| && i < |rows|
            ensures Blocks(rows, keys, t, i) <==> Blocks(rows, keys[1..], t - 1, i)
          {
            BlocksWithout(rows, keys, t, i);
          }
          Shifted(rows, rows, keys);
        case Some(k) =>
          var retired := Retired(rows[k], at);
          if Rewrite(rows, k, retired).None? {
            var j :| 0 <= j < |rows| && j != k && rows[j].key == retired.key;
            assert Taken(rows, k, ClosedKey(rows[k]), []);
            assert Blocks(rows, keys, 0, k);
          } else {
            RewriteKeepsValid(rows, k, retired);
            var next := rows[k := retired];
            assert !Taken(rows, k, ClosedKey(rows[k]), []);
            RetiringFailsIff(next, at, keys[1..], lead);
            forall t: nat, i: nat | 1 <= t < |keys| && i < |rows|
              ensures Blocks(rows, keys, t, i) <==> Blocks(next, keys[1..], t - 1, i)
            {
              BlocksAfter(rows, at, keys, k, t, i);
            }
            Shifted(rows, next, keys);
          }
      }
    }
  }

  lemma Shifted(rows: seq<Row>, next: seq<Row>, keys: seq<string>)
    requires keys != [] && |next| == |rows|
    requires forall i: nat :: i < |rows| ==> !Blocks(rows, keys, 0, i)
    requires forall t: nat, i: nat :: 1 <= t < |keys| && i < |rows| ==>
               (Blocks(rows, keys, t, i) <==> Blocks(next, keys[1..], t - 1, i))
    ensures (exists t, i :: Blocks(rows, keys, t, i)) <==> exists t, i :: Blocks(next, keys[1..], t, i)
  {
    if t, i :| Blocks(next, keys[1..], t, i) {
      var u: nat, j: nat := t + 1, i;
      assert Blocks(rows, keys, u, j) <==> Blocks(next, keys[1..], u - 1, j);
    }
    if t, i :| Blocks(rows, keys, t, i) {
      var u: nat, j: nat := t, i;
      assert Blocks(rows, keys, u, j) <==> Blocks(next, keys[1..], u - 1, j);
    }
  }

  /** The key the lead ends under: closed once, or twice if its own key is named again. */
  function LeadsKey(r: Row, later: seq<string>): string {
    ClosedKey(if r.key in later then r.(key := ClosedKey(r)) else r)
  }

  /**
    A resolution with a key fails exactly when something it names is standing, and either a
    row to be retired or the row to be turned over would take a key that another row has by
    then; and then it changes nothing.
   */
  lemma ResolutionFailsIff(rows: seq<Row>, a: Alert, closes: seq<string>)
    requires Valid(rows) && a.key != ""
    ensures var keys := [a.key] + closes;
            var p := FirstStanding(rows, keys);
            Resolve(rows, a, closes).1.Err? <==>
              && p < |keys|
              && var i, later := FindStanding(rows, keys[p]).value, keys[p + 1..];
                 (exists t, j :: Blocks(rows, later, t, j)) || Taken(rows, i, LeadsKey(rows[i], later), later)
    ensures Resolve(rows, a, closes).1.Err? ==> Resolve(rows, a, closes).0 == rows
  {
    var keys, at := [a.key] + closes, a.lastRaisedAt;
    var p := FirstStanding(rows, keys);
    LeadIsFirst(rows, at, keys);
    if p < |keys| {
      var i, later := FindStanding(rows, keys[p]).value, keys[p + 1..];
      RetiringFailsIff(rows, at, later, i);
      if RetireAll(rows, at, later, Some(i)).Some? {
        RetireMeans(rows, at, later, i);
        TurningOverFailsIff(rows, a, later, i, RetireAll(rows, at, later, Some(i)).value.0);
      }
    }
  }

  lemma TurningOverFailsIff(rows: seq<Row>, a: Alert, later: seq<string>, i: nat, mid: seq<Row>)
    requires Valid(rows) && i < |rows| == |mid| && rows[i].tier != Resolved
    requires forall j :: 0 <= j < |rows| ==> mid[j] == RetiredIf(rows[j], a.lastRaisedAt, later)
    ensures Rewrite(mid, i, TurnedOver(mid[i], a)).None? <==> Taken(rows, i, LeadsKey(rows[i], later), later)
  {
    var key := LeadsKey(rows[i], later);
    assert TurnedOver(mid[i], a).key == key;
    forall j: nat | j < |rows| && j != i
      ensures mid[j].key == key <==> rows[j].key == key && !(rows[j].tier != Resolved && rows[j].key in later)
    {
      if rows[j].tier != Resolved && rows[j].key in later {
        ClosedKeysDiffer(rows[j], mid[i]);
      }
    }
    if j :| 0 <= j < |mid| && j != i && mid[j].key == key {
      var k: nat := j;
      assert rows[k].key == key;
    }
  }
}
