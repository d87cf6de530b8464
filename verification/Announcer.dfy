/** The announce rule: what the table answers decides whether anybody is told. */
module Announcer {
  import opened Options
  import opened AlertTable
  import opened AlertRuns

  const SEND_QUEUE := 64

  /** A condition to raise, or news that one has passed; `closes` and `onlyIfStanding` matter to the latter only. */
  datatype Candidate = Candidate(
    tier: Tier, kind: string, key: string, subject: string, message: string,
    closes: seq<string>, onlyIfStanding: bool)

  datatype Announcement = Announcement(id: nat, tier: Tier, kind: string, key: string, message: string)

  /** The table, the events published so far, and the alerts waiting to be sent. */
  datatype Desk = Desk(rows: seq<Row>, published: seq<Announcement>, sends: seq<Announcement>)

  function Record(c: Candidate, now: int): Alert {
    Alert(c.tier, c.kind, c.key, c.subject, c.message, now, now)
  }

  function Told(id: nat, a: Alert): Announcement {
    Announcement(id, a.tier, a.kind, a.key, a.message)
  }

  /** Published always; queued only when there is somewhere to send and room to wait. */
  function Announce(d: Desk, rows: seq<Row>, id: nat, a: Alert, routes: bool): Desk {
    Desk(rows, d.published + [Told(id, a)],
         if routes && |d.sends| < SEND_QUEUE then d.sends + [Told(id, a)] else d.sends)
  }

  function PutRaise(d: Desk, a: Alert, keepAck: bool, routes: bool): Desk {
    var (rows, up) := if keepAck then Reconcile(d.rows, a) else Upsert(d.rows, a);
    if up.Ok? && up.value.Notify() then Announce(d, rows, up.value.id, a, routes) else d.(rows := rows)
  }

  function Put(d: Desk, c: Candidate, keepAck: bool, now: int, routes: bool): Desk {
    var a := Record(c, now);
    if c.tier == Resolved then
      var (rows, r) := Resolve(d.rows, a, c.closes);
      var settled := d.(rows := rows);
      if r.Err? || (r.value == 0 && c.onlyIfStanding) then settled
      else if r.value > 0 then Announce(settled, rows, r.value, a, routes)
      else PutRaise(settled, a, keepAck, routes)
    else PutRaise(d, a, keepAck, routes)
  }

  class Alerter {
    const table: Table
    const routes: bool
    var published: seq<Announcement>
    var sends: seq<Announcement>

    ghost function Value(): Desk
      reads this, table
    {
      Desk(table.rows, published, sends)
    }

    constructor (table: Table, routes: bool)
      ensures this.table == table && this.routes == routes
      ensures Value() == Desk(table.rows, [], [])
    {
      this.table, this.routes, published, sends := table, routes, [], [];
    }

    method Enqueue(note: Announcement)
      modifies this`sends
      ensures sends == if routes && |old(sends)| < SEND_QUEUE then old(sends) + [note] else old(sends)
    {
      if !routes {
        return;
      }
      if |sends| < SEND_QUEUE {
        sends := sends + [note];
      }
    }

    /** Published first, then queued for sending. */
    method Tell(id: nat, a: Alert)
      modifies this
      ensures Value() == Announce(old(Value()), table.rows, id, a, routes)
    {
      published := published + [Told(id, a)];
      Enqueue(Told(id, a));
    }

    method PutOnTable(a: Alert, keepAck: bool)
      modifies this, table
      ensures Value() == PutRaise(old(Value()), a, keepAck, routes)
    {
      var up;
      if keepAck {
        up := table.ReconcileAlert(a);
      } else {
        up := table.UpsertAlert(a);
      }
      if up.Err? || !up.value.Notify() {
        return;
      }
      Tell(up.value.id, a);
    }

    method PutCandidate(c: Candidate, keepAck: bool, now: int)
      modifies this, table
      ensures Value() == Put(old(Value()), c, keepAck, now, routes)
    {
      var record := Record(c, now);
      if c.tier == Resolved {
        var r := table.ResolveAlert(record, c.closes);
        if r.Err? {
          return;
        }
        if r.value == 0 && c.onlyIfStanding {
          return;
        }
        if r.value > 0 {
          Tell(r.value, record);
          return;
        }
      }
      PutOnTable(record, keepAck);
    }
  }

  // ---- declaring health over and over

  predicate AnyStanding(rows: seq<Row>, keys: seq<string>) {
    exists k :: 0 <= k < |keys| && Standing(rows, keys[k])
  }

  lemma NothingToClose(rows: seq<Row>, a: Alert, closes: seq<string>)
    requires !AnyStanding(rows, [a.key] + closes)
    ensures Resolve(rows, a, closes) == (rows, if a.key == "" then Err(NoKey) else Ok(0))
  {
    LeadIsFirst(rows, a.lastRaisedAt, [a.key] + closes);
  }

  /** With nothing standing, such a resolution changes nothing at all: no row, no event, nothing to send. */
  lemma NothingStandingIsFree(d: Desk, c: Candidate, keepAck: bool, now: int, routes: bool)
    requires c.tier == Resolved && c.onlyIfStanding && !AnyStanding(d.rows, [c.key] + c.closes)
    ensures Put(d, c, keepAck, now, routes) == d
  {
    NothingToClose(d.rows, Record(c, now), c.closes);
  }

  function PutAll(d: Desk, c: Candidate, keepAck: bool, times: seq<int>, routes: bool): Desk
    decreases |times|
  {
    if times == [] then d
    else Put(PutAll(d, c, keepAck, times[..|times| - 1], routes), c, keepAck, times[|times| - 1], routes)
  }

  /** Two tables with the same keys standing in the same places. */
  predicate SameKeys(r: seq<Row>, s: seq<Row>) {
    |r| == |s| && forall i :: 0 <= i < |r| ==> r[i].key == s[i].key && r[i].tier == s[i].tier && r[i].id == s[i].id
  }

  lemma {:induction false} SameKeyFound(r: seq<Row>, s: seq<Row>, key: string)
    requires SameKeys(r, s)
    ensures FindKey(r, key) == FindKey(s, key)
    decreases |r|
  {
    if r != [] && r[|r| - 1].key != key {
      SameKeyFound(r[..|r| - 1], s[..|s| - 1], key);
    }
  }

  lemma SameRewrite(r: seq<Row>, s: seq<Row>, i: nat, x: Row, y: Row)
    requires SameKeys(r, s) && i < |r| && x.key == y.key && x.tier == y.tier && x.id == y.id
    ensures Rewrite(r, i, x).Some? == Rewrite(s, i, y).Some?
    ensures Rewrite(r, i, x).Some? ==> SameKeys(Rewrite(r, i, x).value, Rewrite(s, i, y).value)
  {
    if j :| 0 <= j < |r| && j != i && r[j].key == x.key {
      assert s[j].key == y.key;
    }
    if j :| 0 <= j < |s| && j != i && s[j].key == y.key {
      assert r[j].key == x.key;
    }
  }

  /** Whether keys can be retired does not depend on when. */
  lemma {:induction false} RetiringIsTimeless(r: seq<Row>, s: seq<Row>, at: int, later: int, keys: seq<string>, lead: Option<nat>)
    requires SameKeys(r, s) && (lead.Some? ==> lead.value < |r|)
    ensures var (x, y) := (RetireAll(r, at, keys, lead), RetireAll(s, later, keys, lead));
            x.Some? == y.Some? && (x.Some? ==> SameKeys(x.value.0, y.value.0) && x.value.1 == y.value.1)
    decreases |keys|
  {
    if keys != [] {
      SameKeyFound(r, s, keys[0]);
      var found := FindStanding(r, keys[0]);
      if found.None? {
        RetiringIsTimeless(r, s, at, later, keys[1..], lead);
      } else if lead.None? {
        RetiringIsTimeless(r, s, at, later, keys[1..], found);
      } else {
        var i := found.value;
        var (x, y) := (Retired(r[i], at), Retired(s[i], later));
        SameRewrite(r, s, i, x, y);
        if Rewrite(r, i, x).Some? {
          RetiringIsTimeless(Rewrite(r, i, x).value, Rewrite(s, i, y).value, at, later, keys[1..], lead);
        }
      }
    }
  }

  lemma FailingIsTimeless(rows: seq<Row>, c: Candidate, now: int, later: int)
    requires Resolve(rows, Record(c, now), c.closes).1.Err?
    ensures Resolve(rows, Record(c, later), c.closes).1.Err?
  {
    var (a, b, keys) := (Record(c, now), Record(c, later), [c.key] + c.closes);
    if c.key != "" {
      RetiringIsTimeless(rows, rows, now, later, keys, None);
      var (x, y) := (RetireAll(rows, now, keys, None), RetireAll(rows, later, keys, None));
      if x.Some? && x.value.1.Some? {
        var i := x.value.1.value;
        SameRewrite(x.value.0, y.value.0, i, TurnedOver(x.value.0[i], a), TurnedOver(y.value.0[i], b));
      }
    }
  }

  /** After such a resolution, another at any later time changes nothing. */
  lemma OnceIsEnough(d: Desk, c: Candidate, keepAck: bool, now: int, later: int, routes: bool)
    requires Valid(d.rows) && c.tier == Resolved && c.onlyIfStanding
    ensures var once := Put(d, c, keepAck, now, routes);
            Put(once, c, keepAck, later, routes) == once
  {
    var once := Put(d, c, keepAck, now, routes);
    if Resolve(d.rows, Record(c, now), c.closes).1.Err? {
      FailingIsTimeless(d.rows, c, now, later);
    } else {
      NothingNamedStands(d.rows, Record(c, now), c.closes);
      assert !AnyStanding(once.rows, [c.key] + c.closes);
      NothingStandingIsFree(once, c, keepAck, later, routes);
    }
  }

  /** Whatever stood before, declaring health any number of times has the effect of declaring it once. */
  lemma {:induction false} DeclaringHealthIsFree(d: Desk, c: Candidate, keepAck: bool, times: seq<int>, routes: bool)
    requires Valid(d.rows) && c.tier == Resolved && c.onlyIfStanding && |times| > 0
    ensures PutAll(d, c, keepAck, times, routes) == Put(d, c, keepAck, times[0], routes)
    decreases |times|
  {
    var n := |times| - 1;
    if n == 0 {
      assert PutAll(d, c, keepAck, times[..0], routes) == d;
    } else {
      DeclaringHealthIsFree(d, c, keepAck, times[..n], routes);
      OnceIsEnough(d, c, keepAck, times[0], times[n], routes);
    }
  }

  // ---- who is told

  function TellsOf(before: Desk, after: Desk): int {
    |after.published| - |before.published|
  }

  /**
    A raise is announced, once and under its row's id, exactly when its key is absent or
    acknowledged; a reconciling raise exactly when the key is absent.
   */
  lemma RaiseIsToldExactlyWhenNews(d: Desk, c: Candidate, keepAck: bool, now: int, routes: bool)
    requires Valid(d.rows) && c.tier != Resolved && Check(Record(c, now)).None?
    ensures var e, after := Look(d.rows, c.key), Put(d, c, keepAck, now, routes);
            if e.None? || (e.value.acked && !keepAck) then
              && Look(after.rows, c.key).Some?
              && after.published
                 == d.published + [Announcement(Look(after.rows, c.key).value.id, c.tier, c.kind, c.key, c.message)]
              && after.sends == d.sends + (if routes && |d.sends| < 64 then after.published[|d.published|..] else [])
              && (e.None? ==> after.rows == d.rows + [Row(NextId(d.rows), c.key, c.tier, c.kind, c.subject, c.message,
                                                          now, now, None)])
            else after.published == d.published && after.sends == d.sends
  {
    var a := Record(c, now);
    NotifiesExactlyWhenNews(d.rows, a);
    RaiseRefines(d.rows, Raise(a), c.key);
    RaiseRefines(d.rows, Renew(a), c.key);
  }

  /** A resolution that closes something is announced once, under the id of the first row it closed. */
  lemma ResolutionIsToldOnce(d: Desk, c: Candidate, keepAck: bool, now: int, routes: bool)
    requires Valid(d.rows) && Kept(d.rows) && c.tier == Resolved && c.key != ""
    requires AnyStanding(d.rows, [c.key] + c.closes)
    ensures var keys := [c.key] + c.closes;
            var p := FirstStanding(d.rows, keys);
            var after := Put(d, c, keepAck, now, routes);
            && p < |keys|
            && after.published == d.published + [Announcement(d.rows[FindStanding(d.rows, keys[p]).value].id,
                                                              c.tier, c.kind, c.key, c.message)]
            && after.sends == d.sends + (if routes && |d.sends| < 64 then after.published[|d.published|..] else [])
            && |after.rows| == |d.rows|
            && var i := FindStanding(d.rows, keys[p]).value;
               after.rows[i].message == c.message && after.rows[i].subject == c.subject
               && after.rows[i].lastRaisedAt == now && after.rows[i].createdAt == d.rows[i].createdAt
  {
    ResolveCannotCollide(d.rows, Record(c, now), c.closes);
    ResolveSettles(d.rows, Record(c, now), c.closes);
  }

  /** A resolved row that still holds its key, and that nobody has acknowledged: raises under the key go unheard. */
  predicate Muted(rows: seq<Row>, key: string) {
    var e := Look(rows, key);
    e.Some? && e.value.tier == Resolved && !e.value.acked
  }

  /** A raise under the key would be news: nothing has it, or what has it was acknowledged. */
  predicate WouldBeNews(rows: seq<Row>, key: string) {
    Look(rows, key).None? || Look(rows, key).value.acked
  }

  /** A resolution that closes something leaves its own key free, unless a resolved row holds it. */
  lemma HeardAfterClosing(d: Desk, key: string, r: Candidate, at: int, routes: bool)
    requires Valid(d.rows) && Kept(d.rows) && Plain(key) && r.tier == Resolved && r.key == key != ""
    requires AnyStanding(d.rows, [key] + r.closes)
    ensures var settled := Put(d, r, false, at, routes);
            Valid(settled.rows) && (WouldBeNews(settled.rows, key) <==> !Muted(d.rows, key))
  {
    var a, keys := Record(r, at), [key] + r.closes;
    ResolveCannotCollide(d.rows, a, r.closes);
    CloseRefines(d.rows, a, r.closes, key);
    ResolveAnswersIff(d.rows, a, r.closes);
    CloseIsSafe(d.rows, a, r.closes);
    assert keys[0] == key && key in keys;
  }

  lemma NothingClosedIsRaised(d: Desk, r: Candidate, at: int, routes: bool)
    requires r.tier == Resolved && !r.onlyIfStanding && r.key != "" && !AnyStanding(d.rows, [r.key] + r.closes)
    ensures Put(d, r, false, at, routes).rows == Upsert(d.rows, Record(r, at)).0
  {
    NothingToClose(d.rows, Record(r, at), r.closes);
  }

  /** A resolution recorded as news holds its key unacknowledged, however the key was held before. */
  lemma TakesTheKey(rows: seq<Row>, a: Alert)
    requires Valid(rows) && Check(a).None?
    ensures Valid(Upsert(rows, a).0) && !WouldBeNews(Upsert(rows, a).0, a.key)
  {
    RaiseRefines(rows, Raise(a), a.key);
    RaiseIsSafe(rows, a);
  }

  /** One that closes nothing is dropped, or takes the key for itself. */
  lemma HeardAfterNothing(d: Desk, key: string, r: Candidate, at: int, routes: bool)
    requires Valid(d.rows) && r.tier == Resolved && r.key == key != "" && r.kind != ""
    requires !AnyStanding(d.rows, [key] + r.closes)
    ensures var settled := Put(d, r, false, at, routes);
            Valid(settled.rows) && (WouldBeNews(settled.rows, key) <==> r.onlyIfStanding && !Muted(d.rows, key))
  {
    assert !Standing(d.rows, ([key] + r.closes)[0]);
    if r.onlyIfStanding {
      NothingStandingIsFree(d, r, false, at, routes);
    } else {
      NothingClosedIsRaised(d, r, at, routes);
      TakesTheKey(d.rows, Record(r, at));
    }
  }

  /**
    A raise straight after a resolution of the same key is announced if and only if the
    resolution closed something or was to be dropped otherwise, and the key is not held by
    an unacknowledged resolved row. A resolution that closes nothing and is recorded as news
    takes the key itself, and so silences the raise.
   */
  lemma RaiseAfterResolutionIsToldIff(d: Desk, c: Candidate, r: Candidate, at: int, now: int, routes: bool)
    requires Valid(d.rows) && Kept(d.rows) && Plain(c.key)
    requires c.tier != Resolved && Check(Record(c, now)).None?
    requires r.tier == Resolved && r.key == c.key && r.kind != ""
    ensures var settled := Put(d, r, false, at, routes);
            TellsOf(settled, Put(settled, c, false, now, routes)) ==
              if (AnyStanding(d.rows, [r.key] + r.closes) || r.onlyIfStanding) && !Muted(d.rows, c.key) then 1 else 0
  {
    if AnyStanding(d.rows, [r.key] + r.closes) {
      HeardAfterClosing(d, c.key, r, at, routes);
    } else {
      HeardAfterNothing(d, c.key, r, at, routes);
    }
    RaiseIsToldExactlyWhenNews(Put(d, r, false, at, routes), c, false, now, routes);
  }

  lemma ResolveAnswersIff(rows: seq<Row>, a: Alert, closes: seq<string>)
    requires Valid(rows) && Resolve(rows, a, closes).1.Ok?
    ensures Resolve(rows, a, closes).1.value > 0 <==> AnyStanding(rows, [a.key] + closes)
  {
    ResolveSettles(rows, a, closes);
  }

  /** However often it is then raised, nobody hears of it. */
  lemma {:induction false} MutedForGood(d: Desk, c: Candidate, keepAck: bool, times: seq<int>, routes: bool)
    requires Valid(d.rows) && Muted(d.rows, c.key) && c.tier != Resolved
    ensures var after := PutAll(d, c, keepAck, times, routes);
            Valid(after.rows) && Muted(after.rows, c.key) && after.published == d.published && after.sends == d.sends
    decreases |times|
  {
    if times != [] {
      var n := |times| - 1;
      MutedForGood(d, c, keepAck, times[..n], routes);
      var mid, a := PutAll(d, c, keepAck, times[..n], routes), Record(c, times[n]);
      RaiseIsSafe(mid.rows, a);
      RaiseRefines(mid.rows, Raise(a), c.key);
      RaiseRefines(mid.rows, Renew(a), c.key);
      if Check(a).None? {
        RaiseIsToldExactlyWhenNews(mid, c, keepAck, times[n], routes);
      }
    }
  }

  // ---- nothing is announced that is not on the table

  predicate HasId(rows: seq<Row>, id: nat) {
    exists i :: 0 <= i < |rows| && rows[i].id == id
  }

  predicate AllRecorded(d: Desk) {
    forall k :: 0 <= k < |d.published| ==> HasId(d.rows, d.published[k].id)
  }

  lemma ToldIsRecorded(d: Desk, after: Desk, rows: seq<Row>, id: nat, a: Alert, routes: bool)
    requires AllRecorded(d) && StillThere(d.rows, rows)
    requires after == d.(rows := rows) || (after == Announce(d, rows, id, a, routes) && HasId(rows, id))
    ensures AllRecorded(after)
  {}

  lemma PutRaiseKeepsRecorded(d: Desk, a: Alert, keepAck: bool, routes: bool)
    requires Valid(d.rows) && AllRecorded(d)
    ensures Valid(PutRaise(d, a, keepAck, routes).rows) && AllRecorded(PutRaise(d, a, keepAck, routes))
  {
    var (rows, up) := if keepAck then Reconcile(d.rows, a) else Upsert(d.rows, a);
    RaiseIsSafe(d.rows, a);
    if up.Ok? {
      match FindKey(d.rows, a.key) {
        case Some(i) => assert rows[i].id == up.value.id;
        case None => assert rows[|d.rows|].id == up.value.id;
      }
      assert HasId(rows, up.value.id);
      ToldIsRecorded(d, PutRaise(d, a, keepAck, routes), rows, up.value.id, a, routes);
    } else {
      ToldIsRecorded(d, PutRaise(d, a, keepAck, routes), rows, 0, a, routes);
    }
  }

  /** Every announcement ever published is of a row the table holds, after any candidate whatever. */
  lemma PutKeepsRecorded(d: Desk, c: Candidate, keepAck: bool, now: int, routes: bool)
    requires Valid(d.rows) && AllRecorded(d)
    ensures Valid(Put(d, c, keepAck, now, routes).rows) && AllRecorded(Put(d, c, keepAck, now, routes))
  {
    var a := Record(c, now);
    if c.tier == Resolved {
      var (rows, r) := Resolve(d.rows, a, c.closes);
      CloseIsSafe(d.rows, a, c.closes);
      ToldIsRecorded(d, d.(rows := rows), rows, 0, a, routes);
      if r.Ok? && r.value > 0 {
        ResolveSettles(d.rows, a, c.closes);
        var keys := [a.key] + c.closes;
        var lead := FindStanding(d.rows, keys[FirstStanding(d.rows, keys)]).value;
        assert rows[lead] == Settled(d.rows, a, keys, lead);
        assert HasId(rows, r.value);
        ToldIsRecorded(d, Put(d, c, keepAck, now, routes), rows, r.value, a, routes);
      } else if r.Ok? && !c.onlyIfStanding {
        PutRaiseKeepsRecorded(d.(rows := rows), a, keepAck, routes);
      }
    } else {
      PutRaiseKeepsRecorded(d, a, keepAck, routes);
    }
  }

  /** Raising under plain keys never leaves the table in a state in which a resolution could collide. */
  lemma PutKeepsKept(d: Desk, c: Candidate, keepAck: bool, now: int, routes: bool)
    requires Valid(d.rows) && Kept(d.rows) && Plain(c.key)
    ensures Valid(Put(d, c, keepAck, now, routes).rows) && Kept(Put(d, c, keepAck, now, routes).rows)
  {
    var a := Record(c, now);
    if c.tier == Resolved {
      CloseIsSafe(d.rows, a, c.closes);
      ResolveCannotCollide(d.rows, a, c.closes);
      var settled := Resolve(d.rows, a, c.closes).0;
      RaiseIsSafe(settled, a);
      RaiseKeeps(settled, a, Raise(a));
    } else {
      RaiseIsSafe(d.rows, a);
      RaiseKeeps(d.rows, a, Raise(a));
    }
  }

  /** A candidate with when it came and whether it was a reconciling one. */
  datatype Brought = Brought(c: Candidate, keepAck: bool, now: int)

  function PutEach(d: Desk, brought: seq<Brought>, routes: bool): Desk
    decreases |brought|
  {
    if brought == [] then d
    else
      var n := |brought| - 1;
      Put(PutEach(d, brought[..n], routes), brought[n].c, brought[n].keepAck, brought[n].now, routes)
  }

  /** So from an empty table, any candidates whatever under plain keys keep it so, and announce only what is recorded. */
  lemma {:induction false} DeskStaysSound(brought: seq<Brought>, routes: bool)
    requires forall k :: 0 <= k < |brought| ==> Plain(brought[k].c.key)
    ensures var d := PutEach(Desk([], [], []), brought, routes);
            Valid(d.rows) && Kept(d.rows) && AllRecorded(d)
    decreases |brought|
  {
    if brought != [] {
      var n := |brought| - 1;
      var d := PutEach(Desk([], [], []), brought[..n], routes);
      DeskStaysSound(brought[..n], routes);
      PutKeepsKept(d, brought[n].c, brought[n].keepAck, brought[n].now, routes);
      PutKeepsRecorded(d, brought[n].c, brought[n].keepAck, brought[n].now, routes);
    }
  }
}
