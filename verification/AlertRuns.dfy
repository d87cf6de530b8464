/** What the alert table promises, operation after operation. */
module AlertRuns {
  import opened Options
  import opened AlertTable

  // ---- what a resolution does, row by row

  predicate Standing(rows: seq<Row>, key: string) {
    FindStanding(rows, key).Some?
  }

  lemma StandingRow(rows: seq<Row>, i: nat, key: string)
    requires Valid(rows) && i < |rows|
    ensures rows[i].key == key ==> FindKey(rows, key) == Some(i)
    ensures FindStanding(rows, key) == Some(i) <==> rows[i].key == key && rows[i].tier != Resolved
  {
    var found := FindKey(rows, key);
    assert found.Some? && rows[i].key == key ==> !(found.value < i) && !(i < found.value);
  }

  /** How many of the keys come before the first that is standing. */
  function FirstStanding(rows: seq<Row>, keys: seq<string>): (p: nat)
    ensures p <= |keys|
    ensures forall q :: 0 <= q < p ==> !Standing(rows, keys[q])
    ensures p < |keys| ==> Standing(rows, keys[p])
    decreases |keys|
  {
    if keys == [] || Standing(rows, keys[0]) then 0 else 1 + FirstStanding(rows, keys[1..])
  }

  lemma RewriteKeepsValid(rows: seq<Row>, i: nat, row: Row)
    requires Valid(rows) && i < |rows| && row.id == rows[i].id
    ensures Rewrite(rows, i, row).Some? ==> Valid(Rewrite(rows, i, row).value)
  {}

  function RetiredIf(r: Row, at: int, keys: seq<string>): Row {
    if r.tier != Resolved && r.key in keys then Retired(r, at) else r
  }

  /** With a lead waiting, every row standing under one of the keys is retired and nothing else is touched. */
  lemma {:induction false} RetireMeans(rows: seq<Row>, at: int, keys: seq<string>, lead: nat)
    requires Valid(rows) && lead < |rows|
    ensures var r := RetireAll(rows, at, keys, Some(lead));
            r.Some? ==>
              && r.value.1 == Some(lead) && Valid(r.value.0)
              && forall j :: 0 <= j < |rows| ==> r.value.0[j] == RetiredIf(rows[j], at, keys)
    decreases |keys|
  {
    if keys != [] {
      var found := FindStanding(rows, keys[0]);
      if found.None? {
        RetireMeans(rows, at, keys[1..], lead);
        forall j | 0 <= j < |rows| ensures rows[j].tier != Resolved ==> rows[j].key != keys[0] {
          StandingRow(rows, j, keys[0]);
        }
      } else {
        var i := found.value;
        var next := Rewrite(rows, i, Retired(rows[i], at));
        if next.Some? {
          RewriteKeepsValid(rows, i, Retired(rows[i], at));
          RetireMeans(next.value, at, keys[1..], lead);
        }
      }
    }
  }

  /** Up to the first standing key nothing happens; from there on it is the lead. */
  lemma {:induction false} LeadIsFirst(rows: seq<Row>, at: int, keys: seq<string>)
    ensures var p := FirstStanding(rows, keys);
            RetireAll(rows, at, keys, None) ==
              if p == |keys| then Some((rows, None))
              else RetireAll(rows, at, keys[p + 1..], FindStanding(rows, keys[p]))
    decreases |keys|
  {
    if keys != [] && !Standing(rows, keys[0]) {
      LeadIsFirst(rows, at, keys[1..]);
      var p := FirstStanding(rows, keys[1..]);
      if p < |keys[1..]| {
        assert keys[1..][p + 1..] == keys[p + 2..];
      }
    }
  }

  /** What a row is after a resolution that succeeds. */
  function Settled(rows: seq<Row>, a: Alert, keys: seq<string>, j: nat): Row
    requires j < |rows|
  {
    var r, p := rows[j], FirstStanding(rows, keys);
    if r.tier == Resolved || r.key !in keys then r
    else if p < |keys| && r.key == keys[p] then
      TurnedOver(if r.key in keys[p + 1..] then Retired(r, a.lastRaisedAt) else r, a)
    else Retired(r, a.lastRaisedAt)
  }

  lemma NotBeforeTheFirst(rows: seq<Row>, keys: seq<string>, j: nat)
    requires Valid(rows) && j < |rows|
    ensures var p := FirstStanding(rows, keys);
            rows[j].tier != Resolved ==>
              (rows[j].key in keys <==> p < |keys| && (rows[j].key == keys[p] || rows[j].key in keys[p + 1..]))
  {
    var p := FirstStanding(rows, keys);
    if q: nat :| q < |keys| && keys[q] == rows[j].key && rows[j].tier != Resolved {
      StandingRow(rows, j, keys[q]);
      assert p <= q;
      assert q > p ==> keys[p + 1..][q - p - 1] == rows[j].key;
    }
  }

  /** Row by row, and the answer: the first one's id, or zero exactly when none of the keys was standing. */
  lemma ResolveSettles(rows: seq<Row>, a: Alert, closes: seq<string>)
    requires Valid(rows) && Resolve(rows, a, closes).1.Ok?
    ensures var (done, r) := Resolve(rows, a, closes);
            var keys := [a.key] + closes;
            var p := FirstStanding(rows, keys);
            && Valid(done) && |done| == |rows|
            && (forall j :: 0 <= j < |rows| ==> done[j] == Settled(rows, a, keys, j))
            && r.value == (if p < |keys| then rows[FindStanding(rows, keys[p]).value].id else 0)
  {
    var keys, at := [a.key] + closes, a.lastRaisedAt;
    var p := FirstStanding(rows, keys);
    LeadIsFirst(rows, at, keys);
    if p < |keys| {
      var i := FindStanding(rows, keys[p]).value;
      RetireMeans(rows, at, keys[p + 1..], i);
      var mid := RetireAll(rows, at, keys[p + 1..], Some(i)).value.0;
      RewriteKeepsValid(mid, i, TurnedOver(mid[i], a));
      forall j | 0 <= j < |rows| ensures mid[i := TurnedOver(mid[i], a)][j] == Settled(rows, a, keys, j) {
        SettledRow(rows, a, keys, i, mid, j);
      }
    } else {
      forall j | 0 <= j < |rows| ensures rows[j] == Settled(rows, a, keys, j) {
        NotBeforeTheFirst(rows, keys, j);
      }
    }
  }

  lemma SettledRow(rows: seq<Row>, a: Alert, keys: seq<string>, i: nat, mid: seq<Row>, j: nat)
    requires Valid(rows) && i < |rows| == |mid| && j < |rows|
    requires FirstStanding(rows, keys) < |keys| && FindStanding(rows, keys[FirstStanding(rows, keys)]) == Some(i)
    requires forall k :: 0 <= k < |rows| ==> mid[k] == RetiredIf(rows[k], a.lastRaisedAt, keys[FirstStanding(rows, keys) + 1..])
    ensures mid[i := TurnedOver(mid[i], a)][j] == Settled(rows, a, keys, j)
  {
    StandingRow(rows, j, keys[FirstStanding(rows, keys)]);
    NotBeforeTheFirst(rows, keys, j);
  }

  /** Row j stands under the p-th key, and no row stands under an earlier one. */
  ghost predicate Leads(rows: seq<Row>, keys: seq<string>, p: nat, j: nat) {
    && p < |keys| && j < |rows| && rows[j].tier != Resolved && rows[j].key == keys[p]
    && forall q, k :: 0 <= q < p && 0 <= k < |rows| && rows[k].tier != Resolved ==> rows[k].key != keys[q]
  }

  /** Row j stands under one of the keys, and is not the first. */
  ghost predicate StandsAside(rows: seq<Row>, keys: seq<string>, j: nat) {
    && j < |rows| && rows[j].tier != Resolved && rows[j].key in keys
    && forall p: nat :: !Leads(rows, keys, p, j)
  }

  /** The row tells the resolution's news from now on, is done with being repeated, and is still the row it was. */
  predicate TellsTheEnd(r: Row, after: Row, a: Alert) {
    && after.id == r.id && after.createdAt == r.createdAt
    && after.tier == a.tier && after.kind == a.kind && after.subject == a.subject && after.message == a.message
    && after.lastRaisedAt == a.lastRaisedAt && after.ackedAt == Some(a.lastRaisedAt)
  }

  /** The row keeps its own words, and is closed as of the resolution. */
  predicate ClosedAside(r: Row, after: Row, at: int) {
    && after.id == r.id && after.createdAt == r.createdAt
    && after.tier == Resolved && after.kind == r.kind && after.subject == r.subject && after.message == r.message
    && after.lastRaisedAt == at && after.ackedAt == Some(at)
    && after.key == r.key + ":closed:" + Decimal(r.id)
  }

  /** The row of the first standing key, whether it is named again or not. */
  predicate SettledAsLead(rows: seq<Row>, a: Alert, keys: seq<string>, p: nat, j: nat, after: Row)
    requires j < |rows| && p < |keys|
  {
    var once := rows[j].key + ":closed:" + Decimal(rows[j].id);
    && TellsTheEnd(rows[j], after, a)
    && after.key == if rows[j].key in keys[p + 1..] then once + ":closed:" + Decimal(rows[j].id) else once
  }

  lemma LeadsIff(rows: seq<Row>, keys: seq<string>, p: nat, j: nat)
    requires Valid(rows) && j < |rows|
    ensures Leads(rows, keys, p, j) <==>
              p == FirstStanding(rows, keys) < |keys| && FindStanding(rows, keys[p]) == Some(j)
  {
    var f := FirstStanding(rows, keys);
    if p < |keys| {
      StandingRow(rows, j, keys[p]);
    }
    if f < |keys| {
      var k := FindStanding(rows, keys[f]).value;
      assert rows[k].key == keys[f] && rows[k].tier != Resolved;
    }
    if p == f < |keys| && FindStanding(rows, keys[p]) == Some(j) {
      forall q, k | 0 <= q < p && 0 <= k < |rows| && rows[k].tier != Resolved ensures rows[k].key != keys[q] {
        assert !Standing(rows, keys[q]);
        StandingRow(rows, k, keys[q]);
      }
    }
  }

  /**
    A resolution that succeeds, field by field. The row of the first standing key tells the
    resolution's news under a key of the closed form; every other row standing under a key
    named is closed with its own words; all other rows are as they were. The answer is the
    first one's id, or zero exactly when nothing named was standing.
   */
  lemma ResolveMeans(rows: seq<Row>, a: Alert, closes: seq<string>)
    requires Valid(rows) && Resolve(rows, a, closes).1.Ok?
    ensures var (done, r) := Resolve(rows, a, closes);
            var keys := [a.key] + closes;
            && Valid(done) && |done| == |rows|
            && (forall j: nat :: j < |rows| && (rows[j].tier == Resolved || rows[j].key !in keys) ==> done[j] == rows[j])
            && (forall p: nat, j: nat :: Leads(rows, keys, p, j) ==>
                  r.value == rows[j].id && SettledAsLead(rows, a, keys, p, j, done[j]))
            && (forall j: nat :: StandsAside(rows, keys, j) ==> ClosedAside(rows[j], done[j], a.lastRaisedAt))
            && (r.value == 0 <==> forall j: nat :: j < |rows| && rows[j].tier != Resolved ==> rows[j].key !in keys)
  {
    var (done, r) := Resolve(rows, a, closes);
    var keys := [a.key] + closes;
    ResolveSettles(rows, a, closes);
    forall p: nat, j: nat
      ensures Leads(rows, keys, p, j) ==>
                p == FirstStanding(rows, keys) < |keys| && FindStanding(rows, keys[p]) == Some(j)
                && SettledAsLead(rows, a, keys, p, j, done[j])
    {
      if j < |rows| {
        LeadsIff(rows, keys, p, j);
        RowSettled(rows, a, keys, j);
      }
    }
    forall j: nat | j < |rows|
      ensures rows[j].tier == Resolved || rows[j].key !in keys ==> done[j] == rows[j]
      ensures StandsAside(rows, keys, j) ==> ClosedAside(rows[j], done[j], a.lastRaisedAt)
    {
      RowSettled(rows, a, keys, j);
    }
    NoneStandsIff(rows, keys);
  }

  lemma RowSettled(rows: seq<Row>, a: Alert, keys: seq<string>, j: nat)
    requires Valid(rows) && j < |rows|
    ensures var n := Settled(rows, a, keys, j);
            && (rows[j].tier == Resolved || rows[j].key !in keys ==> n == rows[j])
            && (forall p: nat :: Leads(rows, keys, p, j) ==> SettledAsLead(rows, a, keys, p, j, n))
            && (StandsAside(rows, keys, j) ==> ClosedAside(rows[j], n, a.lastRaisedAt))
  {
    var f := FirstStanding(rows, keys);
    forall p: nat ensures Leads(rows, keys, p, j) <==> p == f < |keys| && FindStanding(rows, keys[p]) == Some(j) {
      LeadsIff(rows, keys, p, j);
    }
    NotBeforeTheFirst(rows, keys, j);
    if f < |keys| {
      StandingRow(rows, j, keys[f]);
    }
  }

  lemma NoneStandsIff(rows: seq<Row>, keys: seq<string>)
    requires Valid(rows)
    ensures FirstStanding(rows, keys) == |keys| <==>
              forall j: nat :: j < |rows| && rows[j].tier != Resolved ==> rows[j].key !in keys
  {
    var f := FirstStanding(rows, keys);
    forall j: nat | j < |rows| ensures f == |keys| && rows[j].tier != Resolved ==> rows[j].key !in keys {
      NotBeforeTheFirst(rows, keys, j);
    }
    if f < |keys| {
      assert rows[FindStanding(rows, keys[f]).value].key in keys;
    }
  }

  /** After a condition is resolved, none of the keys it names is standing. */
  lemma NothingNamedStands(rows: seq<Row>, a: Alert, closes: seq<string>)
    requires Valid(rows) && a.tier == Resolved && Resolve(rows, a, closes).1.Ok?
    ensures forall key :: key in [a.key] + closes ==> !Standing(Resolve(rows, a, closes).0, key)
  {
    ResolveSettles(rows, a, closes);
    var (done, keys) := (Resolve(rows, a, closes).0, [a.key] + closes);
    assert forall j :: 0 <= j < |done| ==> done[j] == Settled(rows, a, keys, j);
    assert forall j :: 0 <= j < |done| ==> done[j].tier == Resolved || done[j].key !in keys;
  }

  // ---- any sequence of operations

  datatype Op = Raise(a: Alert) | Renew(a: Alert) | Close(a: Alert, closes: seq<string>) | Ack(id: nat, at: int)

  function Apply(rows: seq<Row>, op: Op): seq<Row> {
    match op
    case Raise(a) => Upsert(rows, a).0
    case Renew(a) => Reconcile(rows, a).0
    case Close(a, closes) => Resolve(rows, a, closes).0
    case Ack(id, at) => Acknowledge(rows, id, at).0
  }

  function Run(ops: seq<Op>): seq<Row>
    decreases |ops|
  {
    if ops == [] then [] else Apply(Run(ops[..|ops| - 1]), ops[|ops| - 1])
  }

  /** A row a table still has: the same id, born at the same time, at the same place. */
  predicate StillThere(before: seq<Row>, after: seq<Row>) {
    && |before| <= |after|
    && forall i :: 0 <= i < |before| ==> after[i].id == before[i].id && after[i].createdAt == before[i].createdAt
  }

  lemma TouchIsSafe(rows: seq<Row>, i: nat, row: Row)
    requires Valid(rows) && i < |rows|
    requires row.id == rows[i].id && row.key == rows[i].key && row.createdAt == rows[i].createdAt
    ensures Valid(rows[i := row]) && StillThere(rows, rows[i := row])
  {}

  lemma InsertIsSafe(rows: seq<Row>, a: Alert)
    requires Valid(rows) && FindKey(rows, a.key).None?
    ensures Valid(Insert(rows, a)) && StillThere(rows, Insert(rows, a))
  {}

  lemma RaiseIsSafe(rows: seq<Row>, a: Alert)
    requires Valid(rows)
    ensures Valid(Upsert(rows, a).0) && StillThere(rows, Upsert(rows, a).0)
    ensures Valid(Reconcile(rows, a).0) && StillThere(rows, Reconcile(rows, a).0)
  {
    match FindKey(rows, a.key) {
      case None => InsertIsSafe(rows, a);
      case Some(i) =>
        TouchIsSafe(rows, i, rows[i].(lastRaisedAt := a.lastRaisedAt, ackedAt := None));
        TouchIsSafe(rows, i, rows[i].(lastRaisedAt := a.lastRaisedAt));
    }
  }

  lemma AckIsSafe(rows: seq<Row>, id: nat, at: int)
    requires Valid(rows)
    ensures Valid(Acknowledge(rows, id, at).0) && StillThere(rows, Acknowledge(rows, id, at).0)
  {
    match FindId(rows, id) {
      case None =>
      case Some(i) => TouchIsSafe(rows, i, rows[i].(ackedAt := Some(at)));
    }
  }

  lemma CloseIsSafe(rows: seq<Row>, a: Alert, closes: seq<string>)
    requires Valid(rows)
    ensures Valid(Resolve(rows, a, closes).0) && StillThere(rows, Resolve(rows, a, closes).0)
  {
    if Resolve(rows, a, closes).1.Ok? {
      ResolveSettles(rows, a, closes);
      var (done, keys) := (Resolve(rows, a, closes).0, [a.key] + closes);
      forall j | 0 <= j < |rows| ensures done[j].id == rows[j].id && done[j].createdAt == rows[j].createdAt {
        assert done[j] == Settled(rows, a, keys, j);
      }
    }
  }

  /** No operation breaks the constraints, loses a row or changes when one was created. */
  lemma ApplyIsSafe(rows: seq<Row>, op: Op)
    requires Valid(rows)
    ensures Valid(Apply(rows, op)) && StillThere(rows, Apply(rows, op))
  {
    match op
    case Raise(a) => RaiseIsSafe(rows, a);
    case Renew(a) => RaiseIsSafe(rows, a);
    case Close(a, closes) => CloseIsSafe(rows, a, closes);
    case Ack(id, at) => AckIsSafe(rows, id, at);
  }

  /** So a row present after the first n operations is there, born at the same time, after all of them. */
  lemma {:induction false} RunIsSafe(ops: seq<Op>, n: nat)
    requires n <= |ops|
    ensures Valid(Run(ops)) && StillThere(Run(ops[..n]), Run(ops))
    decreases |ops|
  {
    if ops == [] {
      assert ops[..n] == ops;
    } else {
      var m := |ops| - 1;
      RunIsSafe(ops[..m], if n <= m then n else m);
      ApplyIsSafe(Run(ops[..m]), ops[m]);
      if n <= m {
        assert ops[..m][..n] == ops[..n];
        StillThereAfterBoth(Run(ops[..n]), Run(ops[..m]), Run(ops));
      } else {
        assert ops[..n] == ops;
      }
    }
  }

  lemma StillThereAfterBoth(a: seq<Row>, b: seq<Row>, c: seq<Row>)
    requires StillThere(a, b) && StillThere(b, c)
    ensures StillThere(a, c)
  {}

  // ---- the ":closed:id" form

  predicate EndsWith(s: string, tail: string) {
    |s| >= |tail| && s[|s| - |tail|..] == tail
  }

  predicate ClosedBy(key: string, id: nat) {
    EndsWith(key, ":closed:" + Decimal(id))
  }

  /** A key that does not look retired. */
  ghost predicate Plain(key: string) {
    forall id: nat :: !ClosedBy(key, id)
  }

  /** Keys are plain or retired under their own row's id, which is how the operations leave them. */
  ghost predicate Kept(rows: seq<Row>) {
    forall i :: 0 <= i < |rows| ==> Plain(rows[i].key) || ClosedBy(rows[i].key, rows[i].id)
  }

  lemma {:induction false} DecimalIsDigits(n: nat)
    ensures |Decimal(n)| > 0 && forall i :: 0 <= i < |Decimal(n)| ==> Decimal(n)[i] != ':'
    decreases n
  {
    if n >= 10 {
      DecimalIsDigits(n / 10);
    }
  }

  lemma {:induction false} DecimalIsUnique(m: nat, n: nat)
    requires Decimal(m) == Decimal(n)
    ensures m == n
    decreases m
  {
    var a, b := Decimal(m), Decimal(n);
    DecimalIsDigits(m / 10);
    DecimalIsDigits(n / 10);
    assert a[|a| - 1] == Digit(m % 10);
    assert b[|b| - 1] == Digit(n % 10);
    assert m % 10 == n % 10;
    if m >= 10 && n >= 10 {
      assert a[..|a| - 1] == Decimal(m / 10);
      assert b[..|b| - 1] == Decimal(n / 10);
      DecimalIsUnique(m / 10, n / 10);
    }
  }

  /** The number a row of digits stands for. */
  function Reads(digits: string): int {
    if digits == [] then 0 else 10 * Reads(digits[..|digits| - 1]) + (digits[|digits| - 1] as int - '0' as int)
  }

  /** The id in a closed key reads back as the id, with no zero in front. */
  lemma {:induction false} DecimalReadsBack(n: nat)
    ensures Reads(Decimal(n)) == n && |Decimal(n)| > 0 && (n > 0 ==> Decimal(n)[0] != '0')
    decreases n
  {
    var s := Decimal(n);
    if n >= 10 {
      DecimalReadsBack(n / 10);
      assert s[..|s| - 1] == Decimal(n / 10);
    } else {
      assert s[..0] == [];
    }
  }

  /** The id is what follows the last colon. */
  lemma ClosedKeyReads(key: string, id: nat)
    requires ClosedBy(key, id)
    ensures var d := Decimal(id);
            |d| < |key| && key[|key| - |d| - 1] == ':' && key[|key| - |d|..] == d
            && forall k :: |key| - |d| <= k < |key| ==> key[k] != ':'
  {
    DecimalIsDigits(id);
    var d := Decimal(id);
    var tail := ":closed:" + d;
    assert key == key[..|key| - |tail|] + tail;
    assert key[|key| - |d|..] == d;
    assert forall k :: |key| - |d| <= k < |key| ==> key[k] == d[k - (|key| - |d|)];
  }

  /** A key is retired under one id at most. */
  lemma ClosedByOne(key: string, m: nat, n: nat)
    requires ClosedBy(key, m) && ClosedBy(key, n)
    ensures m == n
  {
    var a, b := Decimal(m), Decimal(n);
    ClosedKeyReads(key, m);
    ClosedKeyReads(key, n);
    assert |a| == |b|;
    DecimalIsUnique(m, n);
  }

  lemma ClosedKeyIsClosed(r: Row)
    ensures ClosedBy(ClosedKey(r), r.id) && !Plain(ClosedKey(r))
  {
    var key, tail := ClosedKey(r), ":closed:" + Decimal(r.id);
    assert Plain(key) ==> !ClosedBy(key, r.id);
    assert key == r.key + tail;
    assert key[|key| - |tail|..] == tail;
  }

  /** On a kept table, closing a row takes no other row's key. */
  lemma ClosingCannotCollide(rows: seq<Row>, i: nat, row: Row)
    requires Valid(rows) && Kept(rows) && i < |rows| && row.id == rows[i].id && row.key == ClosedKey(rows[i])
    ensures Rewrite(rows, i, row) == Some(rows[i := row]) && Kept(rows[i := row]) && Valid(rows[i := row])
  {
    ClosedKeyIsClosed(rows[i]);
    forall j | 0 <= j < |rows| && j != i ensures rows[j].key != row.key {
      assert Plain(rows[j].key) || ClosedBy(rows[j].key, rows[j].id);
      if rows[j].key == row.key {
        ClosedByOne(row.key, rows[i].id, rows[j].id);
        assert false;
      }
    }
  }

  lemma {:induction false} RetiringCannotFail(rows: seq<Row>, at: int, keys: seq<string>, lead: Option<nat>)
    requires Valid(rows) && Kept(rows) && (lead.Some? ==> lead.value < |rows|)
    ensures RetireAll(rows, at, keys, lead).Some?
    ensures Valid(RetireAll(rows, at, keys, lead).value.0) && Kept(RetireAll(rows, at, keys, lead).value.0)
    decreases |keys|
  {
    if keys != [] {
      var found := FindStanding(rows, keys[0]);
      if found.None? {
        RetiringCannotFail(rows, at, keys[1..], lead);
      } else if lead.None? {
        RetiringCannotFail(rows, at, keys[1..], found);
      } else {
        var row := Retired(rows[found.value], at);
        ClosingCannotCollide(rows, found.value, row);
        RetiringCannotFail(rows[found.value := row], at, keys[1..], lead);
      }
    }
  }

  /** On a kept table a resolution fails only for want of a key. */
  lemma ResolveCannotCollide(rows: seq<Row>, a: Alert, closes: seq<string>)
    requires Valid(rows) && Kept(rows)
    ensures Resolve(rows, a, closes).1.Err? <==> a.key == ""
    ensures Kept(Resolve(rows, a, closes).0)
  {
    if a.key != "" {
      RetiringCannotFail(rows, a.lastRaisedAt, [a.key] + closes, None);
      var (mid, lead) := RetireAll(rows, a.lastRaisedAt, [a.key] + closes, None).value;
      if lead.Some? {
        ClosingCannotCollide(mid, lead.value, TurnedOver(mid[lead.value], a));
      }
    }
  }

  predicate RaisesKey(op: Op, key: string) {
    (op.Raise? || op.Renew?) && op.a.key == key
  }

  ghost predicate PlainOp(op: Op) {
    forall key :: RaisesKey(op, key) ==> Plain(key)
  }

  lemma InsertKeeps(rows: seq<Row>, a: Alert)
    requires Kept(rows) && Plain(a.key)
    ensures Kept(Insert(rows, a))
  {}

  lemma TouchKeeps(rows: seq<Row>, i: nat, row: Row)
    requires Kept(rows) && i < |rows| && row.id == rows[i].id && row.key == rows[i].key
    ensures Kept(rows[i := row])
  {}

  lemma ApplyKeeps(rows: seq<Row>, op: Op)
    requires Valid(rows) && Kept(rows) && PlainOp(op)
    ensures Kept(Apply(rows, op))
  {
    match op
    case Close(a, closes) => ResolveCannotCollide(rows, a, closes);
    case Ack(id, at) =>
      if i :| FindId(rows, id) == Some(i) {
        TouchKeeps(rows, i, rows[i].(ackedAt := Some(at)));
      }
    case Raise(a) => RaiseKeeps(rows, a, op);
    case Renew(a) => RaiseKeeps(rows, a, op);
  }

  lemma RaiseKeeps(rows: seq<Row>, a: Alert, op: Op)
    requires Kept(rows) && PlainOp(op) && RaisesKey(op, a.key)
    ensures Kept(Upsert(rows, a).0) && Kept(Reconcile(rows, a).0)
  {
    InsertKeeps(rows, a);
    if i :| FindKey(rows, a.key) == Some(i) {
      TouchKeeps(rows, i, rows[i].(lastRaisedAt := a.lastRaisedAt, ackedAt := None));
      TouchKeeps(rows, i, rows[i].(lastRaisedAt := a.lastRaisedAt));
    }
  }

  /** As long as nothing is raised under a key that looks retired, no resolution with a key ever fails. */
  lemma {:induction false} ResolutionsAlwaysSucceed(ops: seq<Op>, a: Alert, closes: seq<string>)
    requires forall i :: 0 <= i < |ops| ==> PlainOp(ops[i])
    ensures Valid(Run(ops)) && Kept(Run(ops))
    ensures a.key != "" ==> Resolve(Run(ops), a, closes).1.Ok?
    decreases |ops|
  {
    if ops != [] {
      ResolutionsAlwaysSucceed(ops[..|ops| - 1], a, closes);
      ApplyKeeps(Run(ops[..|ops| - 1]), ops[|ops| - 1]);
      ApplyIsSafe(Run(ops[..|ops| - 1]), ops[|ops| - 1]);
    }
    ResolveCannotCollide(Run(ops), a, closes);
  }

  /** The condition matters: a resolution of one key fails exactly when another row already has its retired form. */
  lemma CollisionStopsResolution(rows: seq<Row>, a: Alert)
    requires Valid(rows) && a.key != ""
    ensures Resolve(rows, a, []).1.Err? <==>
              Standing(rows, a.key) && FindKey(rows, ClosedKey(rows[FindStanding(rows, a.key).value])).Some?
    ensures Resolve(rows, a, []).1.Err? ==> Resolve(rows, a, []).0 == rows
  {
    assert [a.key] + [] == [a.key];
    assert [a.key][1..] == [];
    assert RetireAll(rows, a.lastRaisedAt, [a.key], None) == Some((rows, FindStanding(rows, a.key)));
    if Standing(rows, a.key) {
      var i := FindStanding(rows, a.key).value;
      var taken := FindKey(rows, ClosedKey(rows[i]));
      assert |ClosedKey(rows[i])| > |rows[i].key|;
      if taken.Some? {
        assert taken.value != i && rows[taken.value].key == TurnedOver(rows[i], a).key;
      }
    }
  }

  // ---- one key at a time

  /** A condition on the user's list: which row, how grave, and whether they have seen it. */
  datatype Entry = Entry(id: nat, tier: Tier, acked: bool)

  function Look(rows: seq<Row>, key: string): Option<Entry> {
    match FindKey(rows, key)
    case None => None
    case Some(i) => Some(Entry(rows[i].id, rows[i].tier, rows[i].ackedAt.Some?))
  }

  /** What one operation does to one key; `next` is the id a new row would get. */
  function NextEntry(e: Option<Entry>, key: string, op: Op, next: nat): Option<Entry> {
    match op
    case Raise(a) =>
      if Check(a).Some? || a.key != key then e
      else if e.None? then Some(Entry(next, a.tier, false))
      else Some(e.value.(acked := false))
    case Renew(a) =>
      if Check(a).Some? || a.key != key || e.Some? then e else Some(Entry(next, a.tier, false))
    case Close(a, closes) =>
      if a.key == "" || key !in [a.key] + closes || e.None? || e.value.tier == Resolved then e else None
    case Ack(id, _) =>
      if e.Some? && e.value.id == id then Some(e.value.(acked := true)) else e
  }

  lemma LookIsUnique(rows: seq<Row>, i: nat)
    requires Valid(rows) && i < |rows|
    ensures Look(rows, rows[i].key) == Some(Entry(rows[i].id, rows[i].tier, rows[i].ackedAt.Some?))
  {
    StandingRow(rows, i, rows[i].key);
  }

  lemma AbsentEntry(rows: seq<Row>, key: string)
    requires forall i :: 0 <= i < |rows| ==> rows[i].key != key
    ensures Look(rows, key) == None
  {}

  /** A row written to in place, under its own id and key. */
  lemma TouchRefines(rows: seq<Row>, i: nat, row: Row, key: string)
    requires Valid(rows) && i < |rows|
    requires row.id == rows[i].id && row.key == rows[i].key && row.createdAt == rows[i].createdAt
    ensures Look(rows[i := row], key) ==
              if key == row.key then Some(Entry(row.id, row.tier, row.ackedAt.Some?)) else Look(rows, key)
  {
    var n := rows[i := row];
    TouchIsSafe(rows, i, row);
    if key == row.key {
      LookIsUnique(n, i);
    } else {
      EntryStays(rows, n, key);
    }
  }

  lemma InsertRefines(rows: seq<Row>, a: Alert, key: string)
    requires Valid(rows) && FindKey(rows, a.key).None?
    ensures Look(Insert(rows, a), key) ==
              if key == a.key then Some(Entry(NextId(rows), a.tier, false)) else Look(rows, key)
  {
    var n := Insert(rows, a);
    InsertIsSafe(rows, a);
    if key == a.key {
      LookIsUnique(n, |rows|);
    } else {
      match FindKey(rows, key) {
        case Some(i) => LookIsUnique(n, i);
        case None => AbsentEntry(n, key);
      }
    }
  }

  lemma RaiseRefines(rows: seq<Row>, op: Op, key: string)
    requires Valid(rows) && (op.Raise? || op.Renew?)
    ensures Look(Apply(rows, op), key) == NextEntry(Look(rows, key), key, op, NextId(rows))
  {
    var a := op.a;
    match FindKey(rows, a.key) {
      case None => InsertRefines(rows, a, key);
      case Some(i) =>
        LookIsUnique(rows, i);
        TouchRefines(rows, i, rows[i].(lastRaisedAt := a.lastRaisedAt, ackedAt := None), key);
        TouchRefines(rows, i, rows[i].(lastRaisedAt := a.lastRaisedAt), key);
    }
  }

  lemma EntryStays(rows: seq<Row>, n: seq<Row>, key: string)
    requires Valid(rows) && Valid(n) && |n| == |rows|
    requires forall j :: 0 <= j < |rows| ==> n[j] == rows[j] || (rows[j].key != key && n[j].key != key)
    ensures Look(n, key) == Look(rows, key)
  {
    match FindKey(rows, key) {
      case Some(i) => LookIsUnique(n, i);
      case None => AbsentEntry(n, key);
    }
  }

  lemma AckRefines(rows: seq<Row>, op: Op, key: string)
    requires Valid(rows) && op.Ack?
    ensures Look(Apply(rows, op), key) == NextEntry(Look(rows, key), key, op, NextId(rows))
  {
    match FindId(rows, op.id) {
      case None =>
      case Some(i) =>
        LookIsUnique(rows, i);
        TouchRefines(rows, i, rows[i].(ackedAt := Some(op.at)), key);
        if j :| FindKey(rows, key) == Some(j) && j != i {
          assert rows[j].id != rows[i].id;
        }
    }
  }

  lemma CloseRefines(rows: seq<Row>, a: Alert, closes: seq<string>, key: string)
    requires Valid(rows) && Kept(rows) && Plain(key) && a.key != ""
    ensures Look(Resolve(rows, a, closes).0, key) ==
              var e := Look(rows, key);
              if key !in [a.key] + closes || e.None? || e.value.tier == Resolved then e else None
  {
    ResolveCannotCollide(rows, a, closes);
    ResolveSettles(rows, a, closes);
    var (n, keys) := (Resolve(rows, a, closes).0, [a.key] + closes);
    forall j | 0 <= j < |rows|
      ensures if rows[j].tier == Resolved || rows[j].key !in keys then n[j] == rows[j] else n[j].key != key
    {
      ClosedRowIsNot(rows, a, keys, j, key);
    }
    match FindKey(rows, key) {
      case Some(i) =>
        if rows[i].tier == Resolved || key !in keys {
          forall j | 0 <= j < |rows| && j != i ensures rows[j].key != key {
            LookIsUnique(rows, j);
          }
          EntryStays(rows, n, key);
        } else {
          forall j | 0 <= j < |rows| && j != i ensures rows[j].key != key {
            LookIsUnique(rows, j);
          }
          AbsentEntry(n, key);
        }
      case None => EntryStays(rows, n, key);
    }
  }

  lemma ClosedRowIsNot(rows: seq<Row>, a: Alert, keys: seq<string>, j: nat, key: string)
    requires j < |rows| && Plain(key)
    ensures rows[j].tier != Resolved && rows[j].key in keys ==> Settled(rows, a, keys, j).key != key
  {
    ClosedKeyIsClosed(rows[j]);
    ClosedKeyIsClosed(Retired(rows[j], a.lastRaisedAt));
  }

  /** Over any operations, each plain key's entry moves as its own machine says: a retired row never comes back. */
  lemma ApplyRefines(rows: seq<Row>, op: Op, key: string)
    requires Valid(rows) && Kept(rows) && PlainOp(op) && Plain(key)
    ensures Look(Apply(rows, op), key) == NextEntry(Look(rows, key), key, op, NextId(rows))
  {
    match op
    case Raise(_) => RaiseRefines(rows, op, key);
    case Renew(_) => RaiseRefines(rows, op, key);
    case Close(a, closes) =>
      if a.key != "" {
        CloseRefines(rows, a, closes, key);
      }
    case Ack(_, _) => AckRefines(rows, op, key);
  }

  function EntryAfter(ops: seq<Op>, key: string): Option<Entry>
    decreases |ops|
  {
    if ops == [] then None
    else
      var n := |ops| - 1;
      NextEntry(EntryAfter(ops[..n], key), key, ops[n], NextId(Run(ops[..n])))
  }

  lemma {:induction false} RunRefines(ops: seq<Op>, key: string)
    requires (forall i :: 0 <= i < |ops| ==> PlainOp(ops[i])) && Plain(key)
    ensures Look(Run(ops), key) == EntryAfter(ops, key)
    decreases |ops|
  {
    if ops != [] {
      var n := |ops| - 1;
      RunRefines(ops[..n], key);
      ResolutionsAlwaysSucceed(ops[..n], Alert(Info, "", "", "", "", 0, 0), []);
      ApplyRefines(Run(ops[..n]), ops[n], key);
    }
  }

  /**
    A raise is news exactly when its key is absent or acknowledged; a reconciling raise only
    when it is absent, and it never takes an acknowledgement back.
   */
  lemma NotifiesExactlyWhenNews(rows: seq<Row>, a: Alert)
    requires Valid(rows) && Check(a).None?
    ensures var e := Look(rows, a.key);
            && Upsert(rows, a).1.Ok? && Reconcile(rows, a).1.Ok?
            && (Upsert(rows, a).1.value.Notify() <==> e.None? || e.value.acked)
            && (Reconcile(rows, a).1.value.Notify() <==> e.None?)
            && (Upsert(rows, a).1.value.isNew <==> e.None?) && (Reconcile(rows, a).1.value.isNew <==> e.None?)
            && Upsert(rows, a).1.value.id == Reconcile(rows, a).1.value.id == (if e.None? then NextId(rows) else e.value.id)
            && (forall i :: 0 <= i < |rows| ==> Reconcile(rows, a).0[i].ackedAt == rows[i].ackedAt)
  {}

  /** The row of the key raised again has new times and nothing else; no other row is touched. */
  predicate OnlyTimesMoved(rows: seq<Row>, after: seq<Row>, a: Alert) {
    && |rows| <= |after|
    && forall i :: 0 <= i < |rows| ==>
         if rows[i].key != a.key then after[i] == rows[i]
         else after[i] == rows[i].(lastRaisedAt := a.lastRaisedAt, ackedAt := after[i].ackedAt)
  }

  /** A new row, unacknowledged and in the raise's own words, only when the key was absent. */
  predicate AddedIfAbsent(rows: seq<Row>, after: seq<Row>, a: Alert) {
    var added := Row(NextId(rows), a.key, a.tier, a.kind, a.subject, a.message, a.createdAt, a.lastRaisedAt, None);
    if Look(rows, a.key).Some? then |after| == |rows| else |after| == |rows| + 1 && after[|rows|] == added
  }

  /** Raising again never rewrites what the first telling said: that is the record. */
  lemma RaisingKeepsTheRecord(rows: seq<Row>, a: Alert)
    requires Valid(rows) && Check(a).None?
    ensures OnlyTimesMoved(rows, Upsert(rows, a).0, a) && AddedIfAbsent(rows, Upsert(rows, a).0, a)
    ensures OnlyTimesMoved(rows, Reconcile(rows, a).0, a) && AddedIfAbsent(rows, Reconcile(rows, a).0, a)
  {
    forall i | 0 <= i < |rows| ensures rows[i].key == a.key ==> FindKey(rows, a.key) == Some(i) {
      StandingRow(rows, i, a.key);
    }
  }

  /** What is refused, for what, and that nothing is then written. */
  lemma RaiseIsRefusedIff(rows: seq<Row>, a: Alert)
    ensures Upsert(rows, a).1.Err? <==> Reconcile(rows, a).1.Err?
    ensures Upsert(rows, a).1.Err? <==> a.key == "" || a.tier.Unknown? || a.kind == ""
    ensures Upsert(rows, a).1.Err? ==>
              && Upsert(rows, a) == Reconcile(rows, a) && Upsert(rows, a).0 == rows
              && Upsert(rows, a).1.problem == if a.key == "" then NoKey else if a.tier.Unknown? then BadTier else NoKind
  {}

  /**
    An acknowledgement writes its time on the row of that id if it is the first, and nothing
    else anywhere; it says whether it was, and that there is no such row when there is none.
   */
  lemma AcknowledgeMeans(rows: seq<Row>, id: nat, at: int)
    requires Valid(rows)
    ensures var (n, r) := Acknowledge(rows, id, at);
            && |n| == |rows|
            && (forall j :: 0 <= j < |rows| ==>
                  n[j] == if rows[j].id == id && rows[j].ackedAt.None? then rows[j].(ackedAt := Some(at)) else rows[j])
            && (r == Err(NotFound) <==> forall j :: 0 <= j < |rows| ==> rows[j].id != id)
            && (r == Ok(true) <==> exists j :: 0 <= j < |rows| && rows[j].id == id && rows[j].ackedAt.None?)
            && (r == Ok(false) <==> exists j :: 0 <= j < |rows| && rows[j].id == id && rows[j].ackedAt.Some?)
  {
    if i :| FindId(rows, id) == Some(i) {
      assert forall j :: 0 <= j < |rows| && rows[j].id == id ==> !(j < i) && !(i < j);
    }
  }
}
