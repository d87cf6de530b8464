/**
  The alert table: rows identified by a dedup key that a resolution retires by rewriting it.
  Each operation is a method on the rows, proved equal to a function of the rows before it.
 */
module AlertTable {
  import opened Options

  datatype Tier = Info | Warning | Critical | Resolved | Loss | Unknown(text: string)

  /** What a caller brings: an alert to record, or the news that a condition has passed. */
  datatype Alert = Alert(
    tier: Tier, kind: string, key: string, subject: string, message: string, createdAt: int, lastRaisedAt: int)

  datatype Row = Row(
    id: nat, key: string, tier: Tier, kind: string, subject: string, message: string,
    createdAt: int, lastRaisedAt: int, ackedAt: Option<int>)

  datatype Problem = NoKey | BadTier | NoKind | KeyTaken | NotFound

  datatype Result<+T> = Ok(value: T) | Err(problem: Problem)

  /** What became of an alert that was raised. */
  datatype Raised = Raised(id: nat, isNew: bool, reopened: bool) {
    predicate Notify() {
      isNew || reopened
    }
  }

  // ---- rows and keys

  /** The table's own constraints: a primary key handed out in order, and a unique dedup key. */
  ghost predicate Valid(rows: seq<Row>) {
    && (forall i :: 0 <= i < |rows| ==> rows[i].id >= 1)
    && (forall i, j :: 0 <= i < j < |rows| ==> rows[i].id < rows[j].id)
    && (forall i, j :: 0 <= i < j < |rows| ==> rows[i].key != rows[j].key)
  }

  function NextId(rows: seq<Row>): nat {
    if rows == [] then 1 else rows[|rows| - 1].id + 1
  }

  function FindKey(rows: seq<Row>, key: string): (found: Option<nat>)
    ensures found.Some? ==> found.value < |rows| && rows[found.value].key == key
    ensures found.None? ==> forall i :: 0 <= i < |rows| ==> rows[i].key != key
    decreases |rows|
  {
    if rows == [] then None
    else if rows[|rows| - 1].key == key then Some(|rows| - 1)
    else FindKey(rows[..|rows| - 1], key)
  }

  function FindId(rows: seq<Row>, id: nat): (found: Option<nat>)
    ensures found.Some? ==> found.value < |rows| && rows[found.value].id == id
    ensures found.None? ==> forall i :: 0 <= i < |rows| ==> rows[i].id != id
    decreases |rows|
  {
    if rows == [] then None
    else if rows[|rows| - 1].id == id then Some(|rows| - 1)
    else FindId(rows[..|rows| - 1], id)
  }

  function FindStanding(rows: seq<Row>, key: string): (found: Option<nat>)
    ensures found.Some? ==> found.value < |rows| && rows[found.value].key == key && rows[found.value].tier != Resolved
  {
    var found := FindKey(rows, key);
    if found.Some? && rows[found.value].tier == Resolved then None else found
  }

  /** A write to one row, refused by the unique index when its key is another row's. */
  function Rewrite(rows: seq<Row>, i: nat, row: Row): Option<seq<Row>>
    requires i < |rows|
  {
    if exists j :: 0 <= j < |rows| && j != i && rows[j].key == row.key then None else Some(rows[i := row])
  }

  function Digit(d: nat): char
    requires d < 10
  {
    ('0' as int + d) as char
  }

  function Decimal(n: nat): string {
    if n < 10 then [Digit(n)] else Decimal(n / 10) + [Digit(n % 10)]
  }

  function ClosedKey(r: Row): string {
    r.key + ":closed:" + Decimal(r.id)
  }

  // ---- raising

  function Check(a: Alert): Option<Problem> {
    if a.key == "" then Some(NoKey)
    else if a.tier.Unknown? then Some(BadTier)
    else if a.kind == "" then Some(NoKind)
    else None
  }

  function Insert(rows: seq<Row>, a: Alert): seq<Row> {
    rows + [Row(NextId(rows), a.key, a.tier, a.kind, a.subject, a.message, a.createdAt, a.lastRaisedAt, None)]
  }

  function Upsert(rows: seq<Row>, a: Alert): (seq<Row>, Result<Raised>) {
    if Check(a).Some? then (rows, Err(Check(a).value))
    else match FindKey(rows, a.key)
      case None => (Insert(rows, a), Ok(Raised(NextId(rows), true, false)))
      case Some(i) =>
        (rows[i := rows[i].(lastRaisedAt := a.lastRaisedAt, ackedAt := None)],
         Ok(Raised(rows[i].id, false, rows[i].ackedAt.Some?)))
  }

  function Reconcile(rows: seq<Row>, a: Alert): (seq<Row>, Result<Raised>) {
    if Check(a).Some? then (rows, Err(Check(a).value))
    else match FindKey(rows, a.key)
      case None => (Insert(rows, a), Ok(Raised(NextId(rows), true, false)))
      case Some(i) => (rows[i := rows[i].(lastRaisedAt := a.lastRaisedAt)], Ok(Raised(rows[i].id, false, false)))
  }

  // ---- resolving

  /** Closed where it is, keeping its own words. */
  function Retired(r: Row, at: int): Row {
    r.(key := ClosedKey(r), tier := Resolved, lastRaisedAt := at, ackedAt := Some(at))
  }

  /** Closed with the resolution's tier and words. */
  function TurnedOver(r: Row, a: Alert): Row {
    r.(key := ClosedKey(r), tier := a.tier, kind := a.kind, subject := a.subject, message := a.message,
       lastRaisedAt := a.lastRaisedAt, ackedAt := Some(a.lastRaisedAt))
  }

  /** The keys in order: the first found standing waits as the lead, every other is retired. */
  function RetireAll(rows: seq<Row>, at: int, keys: seq<string>, lead: Option<nat>): (r: Option<(seq<Row>, Option<nat>)>)
    requires lead.Some? ==> lead.value < |rows|
    ensures r.Some? ==> |r.value.0| == |rows| && (r.value.1.Some? ==> r.value.1.value < |rows|)
    decreases |keys|
  {
    if keys == [] then Some((rows, lead))
    else match FindStanding(rows, keys[0])
      case None => RetireAll(rows, at, keys[1..], lead)
      case Some(i) =>
        if lead.None? then RetireAll(rows, at, keys[1..], Some(i))
        else match Rewrite(rows, i, Retired(rows[i], at))
          case None => None
          case Some(next) => RetireAll(next, at, keys[1..], lead)
  }

  /** Zero when nothing named was standing. A refused write leaves the table as it was. */
  function Resolve(rows: seq<Row>, a: Alert, closes: seq<string>): (seq<Row>, Result<nat>) {
    if a.key == "" then (rows, Err(NoKey))
    else match RetireAll(rows, a.lastRaisedAt, [a.key] + closes, None)
      case None => (rows, Err(KeyTaken))
      case Some((mid, None)) => (mid, Ok(0))
      case Some((mid, Some(i))) =>
        match Rewrite(mid, i, TurnedOver(mid[i], a))
        case None => (rows, Err(KeyTaken))
        case Some(done) => (done, Ok(mid[i].id))
  }

  function Acknowledge(rows: seq<Row>, id: nat, at: int): (seq<Row>, Result<bool>) {
    match FindId(rows, id)
    case None => (rows, Err(NotFound))
    case Some(i) =>
      if rows[i].ackedAt.Some? then (rows, Ok(false)) else (rows[i := rows[i].(ackedAt := Some(at))], Ok(true))
  }

  // ---- the table in place

  class Table {
    var rows: seq<Row>

    constructor ()
      ensures rows == []
    {
      rows := [];
    }

    method UpsertAlert(a: Alert) returns (r: Result<Raised>)
      modifies this
      ensures (rows, r) == Upsert(old(rows), a)
    {
      if Check(a).Some? {
        return Err(Check(a).value);
      }
      var existing := FindKey(rows, a.key);
      if existing.None? {
        var id := NextId(rows);
        rows := rows + [Row(id, a.key, a.tier, a.kind, a.subject, a.message, a.createdAt, a.lastRaisedAt, None)];
        return Ok(Raised(id, true, false));
      }
      var row := rows[existing.value];
      rows := rows[existing.value := row.(lastRaisedAt := a.lastRaisedAt, ackedAt := None)];
      return Ok(Raised(row.id, false, row.ackedAt.Some?));
    }

    method ReconcileAlert(a: Alert) returns (r: Result<Raised>)
      modifies this
      ensures (rows, r) == Reconcile(old(rows), a)
    {
      if Check(a).Some? {
        return Err(Check(a).value);
      }
      var existing := FindKey(rows, a.key);
      if existing.None? {
        var id := NextId(rows);
        rows := rows + [Row(id, a.key, a.tier, a.kind, a.subject, a.message, a.createdAt, a.lastRaisedAt, None)];
        return Ok(Raised(id, true, false));
      }
      var row := rows[existing.value];
      rows := rows[existing.value := row.(lastRaisedAt := a.lastRaisedAt)];
      return Ok(Raised(row.id, false, false));
    }

    /** One transaction: the rows are written as the keys are read, and put back if a write is refused. */
    method ResolveAlert(a: Alert, closes: seq<string>) returns (r: Result<nat>)
      modifies this
      ensures (rows, r) == Resolve(old(rows), a, closes)
    {
      if a.key == "" {
        return Err(NoKey);
      }
      var begun, keys, k := rows, [a.key] + closes, 0;
      var lead: Option<nat> := None;
      while k < |keys|
        invariant 0 <= k <= |keys| && (lead.Some? ==> lead.value < |rows|)
        invariant RetireAll(rows, a.lastRaisedAt, keys[k..], lead) == RetireAll(begun, a.lastRaisedAt, keys, None)
      {
        assert keys[k..][1..] == keys[k + 1..];
        var found := FindStanding(rows, keys[k]);
        if found.Some? && lead.None? {
          lead := found;
        } else if found.Some? {
          var next := Rewrite(rows, found.value, Retired(rows[found.value], a.lastRaisedAt));
          if next.None? {
            rows := begun;
            return Err(KeyTaken);
          }
          rows := next.value;
        }
        k := k + 1;
      }
      if lead.None? {
        return Ok(0);
      }
      var id := rows[lead.value].id;
      var done := Rewrite(rows, lead.value, TurnedOver(rows[lead.value], a));
      if done.None? {
        rows := begun;
        return Err(KeyTaken);
      }
      rows := done.value;
      return Ok(id);
    }

    method AckAlert(id: nat, at: int) returns (r: Result<bool>)
      modifies this
      ensures (rows, r) == Acknowledge(old(rows), id, at)
    {
      var found := FindId(rows, id);
      if found.None? {
        return Err(NotFound);
      }
      var row := rows[found.value];
      if row.ackedAt.Some? {
        return Ok(false);
      }
      rows := rows[found.value := row.(ackedAt := Some(at))];
      return Ok(true);
    }
  }
}
