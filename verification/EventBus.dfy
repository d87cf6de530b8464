/**
  The event bus as its goroutines interleave: several publishers inside Publish at once
  under a read lock, consumers draining their channels, and Subscribe and Close alone under
  the write lock. One action is one atomic operation on a channel or the lock.
 */
module EventBus {
  import opened Options

  const SUBSCRIBER_BUFFER := 256

  type Kind = int

  /** A published event; the serial number tells two publications of the same kind apart. */
  datatype Event = Event(serial: nat, kind: Kind)

  /** A subscription with no kinds receives everything. */
  predicate Asked(kinds: Option<set<Kind>>, kind: Kind) {
    kinds.None? || kind in kinds.value
  }

  /** How an event left a channel's buffer. */
  datatype Fate = Consumed | Displaced

  datatype Gone = Gone(event: Event, fate: Fate)

  /** One subscription: its buffer, its drop counter, and the history of what went in and came out. */
  datatype Channel = Channel(
    kinds: Option<set<Kind>>,
    open: bool,
    buffer: seq<Event>,
    dropped: nat,
    sent: seq<Event>,
    gone: seq<Gone>,
    refused: seq<Event>)
  {
    predicate Wants(kind: Kind) {
      Asked(kinds, kind)
    }

    predicate Full() {
      |buffer| >= SUBSCRIBER_BUFFER
    }

    function Send(e: Event): Channel {
      this.(buffer := buffer + [e], sent := sent + [e])
    }

    /** Takes the oldest pending event out, whoever takes it. */
    function TakeOldest(fate: Fate): Channel {
      if buffer == [] then this else this.(buffer := buffer[1..], gone := gone + [Gone(buffer[0], fate)])
    }
  }

  function NewChannel(kinds: Option<set<Kind>>, open: bool): Channel {
    Channel(kinds, open, [], 0, [], [], [])
  }

  /** Where a delivery stands: before its first send, before the displacing receive, or before its second send. */
  datatype Stage = FirstSend | Displace | SecondSend(displaced: bool)

  /** A publisher inside Publish: its event, the subscription it has reached, and how far that delivery has got. */
  datatype Publisher = Publisher(event: Event, at: nat, stage: Stage)

  /**
    The bus: its channels with how much had been published when each subscribed, everything
    published so far, and the publishers now inside.
   */
  datatype Bus = Bus(
    channels: seq<Channel>,
    since: seq<nat>,
    closed: bool,
    log: seq<Event>,
    inside: map<nat, Publisher>)

  const NEW_BUS := Bus([], [], false, [], map[])

  datatype Action =
    | Publish(p: nat, kind: Kind)
    | Advance(p: nat)
    | Receive(channel: nat)
    | Subscribe(kinds: Option<set<Kind>>)
    | Close

  /** The channel a publisher has reached, after its next operation, and where the publisher then stands. */
  function Deliver(c: Channel, p: Publisher): (Channel, Publisher) {
    var onward := p.(at := p.at + 1, stage := FirstSend);
    match p.stage
    case FirstSend =>
      if !c.Wants(p.event.kind) then (c, onward)
      else if !c.Full() then (c.Send(p.event), onward)
      else (c, p.(stage := Displace))
    case Displace =>
      (c.TakeOldest(Displaced), p.(stage := SecondSend(c.buffer != [])))
    case SecondSend(_) =>
      if !c.Full() then (c.Send(p.event).(dropped := c.dropped + 1), onward)
      else (c.(dropped := c.dropped + 1, refused := c.refused + [p.event]), onward)
  }

  /** One atomic step. An action that is not possible, or would have to wait for the lock, changes nothing. */
  function Next(b: Bus, a: Action): Bus {
    match a
    case Publish(p, kind) =>
      if b.closed || p in b.inside then b
      else
        var e := Event(|b.log|, kind);
        b.(log := b.log + [e], inside := b.inside[p := Publisher(e, 0, FirstSend)])
    case Advance(p) =>
      if p !in b.inside then b
      else if b.inside[p].at >= |b.channels| then b.(inside := b.inside - {p})
      else
        var i := b.inside[p].at;
        var (c, q) := Deliver(b.channels[i], b.inside[p]);
        b.(channels := b.channels[i := c], inside := b.inside[p := q])
    case Receive(i) =>
      if i >= |b.channels| then b
      else b.(channels := b.channels[i := b.channels[i].TakeOldest(Consumed)])
    case Subscribe(kinds) =>
      if b.inside != map[] then b
      else b.(channels := b.channels + [NewChannel(kinds, !b.closed)], since := b.since + [|b.log|])
    case Close =>
      if b.inside != map[] || b.closed then b
      else b.(closed := true,
              channels := seq(|b.channels|, i requires 0 <= i < |b.channels| => b.channels[i].(open := false)))
  }

  function RunFrom(b: Bus, actions: seq<Action>): Bus
    decreases |actions|
  {
    if actions == [] then b else Next(RunFrom(b, actions[..|actions| - 1]), actions[|actions| - 1])
  }

  function Run(actions: seq<Action>): Bus {
    RunFrom(NEW_BUS, actions)
  }

  lemma {:induction false} RunOn(b: Bus, first: seq<Action>, then_: seq<Action>)
    ensures RunFrom(b, first + then_) == RunFrom(RunFrom(b, first), then_)
    decreases |then_|
  {
    if then_ == [] {
      assert first + then_ == first;
    } else {
      var n := |then_| - 1;
      RunOn(b, first, then_[..n]);
      var all := first + then_;
      assert all[..|all| - 1] == first + then_[..n] && all[|all| - 1] == then_[n];
      assert RunFrom(b, all) == Next(RunFrom(b, all[..|all| - 1]), all[|all| - 1]);
    }
  }

  // ---- what holds of one channel

  function Events(gone: seq<Gone>): seq<Event> {
    seq(|gone|, i requires 0 <= i < |gone| => gone[i].event)
  }

  /** Where, in order, the events that left in one way stand among all that left. */
  function PlacesOf(gone: seq<Gone>, fate: Fate): (r: seq<nat>)
    ensures forall x :: 0 <= x < |r| ==> r[x] < |gone| && gone[r[x]].fate == fate
    ensures forall x, y :: 0 <= x < y < |r| ==> r[x] < r[y]
    ensures forall k: nat :: k < |gone| && gone[k].fate == fate ==> k in r
    decreases |gone|
  {
    if gone == [] then []
    else
      var n := |gone| - 1;
      PlacesOf(gone[..n], fate) + if gone[n].fate == fate then [n] else []
  }

  /** The events that left in one way, in order. */
  function Left(gone: seq<Gone>, fate: Fate): seq<Event> {
    var at := PlacesOf(gone, fate);
    seq(|at|, x requires 0 <= x < |at| => gone[at[x]].event)
  }

  function CountDisplaced(gone: seq<Gone>): nat {
    |PlacesOf(gone, Displaced)|
  }

  lemma OneMoreGone(gone: seq<Gone>, g: Gone, fate: Fate)
    ensures PlacesOf(gone + [g], fate) == PlacesOf(gone, fate) + if g.fate == fate then [|gone|] else []
  {
    assert (gone + [g])[..|gone|] == gone;
  }

  ghost predicate Distinct(s: seq<Event>) {
    forall i, j :: 0 <= i < j < |s| ==> s[i] != s[j]
  }

  /** Everything published is in the log under its own serial number. */
  ghost predicate Shaped(b: Bus) {
    && |b.since| == |b.channels|
    && (forall k :: 0 <= k < |b.log| ==> b.log[k].serial == k)
    && (forall i :: 0 <= i < |b.since| ==> b.since[i] <= |b.log|)
    && (b.closed ==> b.inside == map[])
  }

  ghost predicate Published(b: Bus, e: Event) {
    e.serial < |b.log| && b.log[e.serial] == e
  }

  /** Published since channel i subscribed, and of a kind it asked for. */
  ghost predicate Meant(b: Bus, i: int, e: Event)
    requires 0 <= i < |b.channels| && |b.since| == |b.channels|
  {
    b.since[i] <= e.serial && Published(b, e) && b.channels[i].Wants(e.kind)
  }

  /** Publisher p carries e and has not yet passed channel i. */
  ghost predicate Carries(b: Bus, p: nat, i: int, e: Event) {
    p in b.inside && b.inside[p].event == e && b.inside[p].at <= i
  }

  ghost predicate Owed(b: Bus, i: int, e: Event) {
    exists p :: Carries(b, p, i, e)
  }

  ghost predicate ChannelInv(b: Bus, i: int)
    requires 0 <= i < |b.channels| && |b.since| == |b.channels|
  {
    var c := b.channels[i];
    && c.sent == Events(c.gone) + c.buffer
    && |c.buffer| <= SUBSCRIBER_BUFFER
    && Distinct(c.sent + c.refused)
    && (forall e :: e in c.sent + c.refused ==> Meant(b, i, e))
    && c.open == !b.closed
  }

  /** Nothing meant for a channel goes missing unaccounted: it was sent, it was refused, or it is on its way. */
  ghost predicate Conserved(b: Bus, i: int)
    requires 0 <= i < |b.channels| && |b.since| == |b.channels|
  {
    forall e :: Meant(b, i, e) ==> e in b.channels[i].sent + b.channels[i].refused || Owed(b, i, e)
  }

  predicate HasDisplaced(q: Publisher, i: int) {
    q.at == i && q.stage == SecondSend(true)
  }

  /** Publishers between displacing an event from channel i and sending their own. */
  function Displacers(inside: map<nat, Publisher>, i: int): set<nat> {
    set p | p in inside && HasDisplaced(inside[p], i)
  }

  function Displacing(b: Bus, i: int): set<nat> {
    Displacers(b.inside, i)
  }

  ghost predicate TallyInv(b: Bus, i: int)
    requires 0 <= i < |b.channels|
  {
    var c := b.channels[i];
    CountDisplaced(c.gone) <= c.dropped + |Displacing(b, i)| && |c.refused| <= c.dropped
  }

  ghost predicate PublisherInv(b: Bus, p: nat)
    requires p in b.inside && |b.since| == |b.channels|
  {
    var q := b.inside[p];
    && q.at <= |b.channels|
    && Published(b, q.event)
    && (forall j :: 0 <= j < |b.channels| ==> b.since[j] <= q.event.serial)
    && (forall j :: q.at <= j < |b.channels| ==> q.event !in b.channels[j].sent + b.channels[j].refused)
    && (q.stage != FirstSend ==> q.at < |b.channels| && b.channels[q.at].Wants(q.event.kind))
  }

  ghost predicate Inv(b: Bus) {
    && Shaped(b)
    && (forall i :: 0 <= i < |b.channels| ==> ChannelInv(b, i) && Conserved(b, i) && TallyInv(b, i))
    && (forall p :: p in b.inside ==> PublisherInv(b, p))
    && (forall p, q :: p in b.inside && q in b.inside && p != q ==> b.inside[p].event != b.inside[q].event)
  }

  // ---- every step keeps it

  lemma TakeMoves(gone: seq<Gone>, buffer: seq<Event>, fate: Fate)
    requires buffer != []
    ensures Events(gone + [Gone(buffer[0], fate)]) + buffer[1..] == Events(gone) + buffer
  {
    assert Events(gone + [Gone(buffer[0], fate)]) == Events(gone) + [buffer[0]];
    assert buffer == [buffer[0]] + buffer[1..];
  }

  lemma TakeKeeps(c: Channel, fate: Fate)
    requires c.sent == Events(c.gone) + c.buffer
    ensures var d := c.TakeOldest(fate);
            && d.sent == c.sent == Events(d.gone) + d.buffer
            && CountDisplaced(d.gone) == CountDisplaced(c.gone) + if c.buffer != [] && fate == Displaced then 1 else 0
  {
    if c.buffer != [] {
      TakeMoves(c.gone, c.buffer, fate);
      OneMoreGone(c.gone, Gone(c.buffer[0], fate), Displaced);
    }
  }

  /** The ways one operation of a delivery can leave the channel and the publisher. */
  datatype Delivered = Unwanted | Pending | Sent | Refused

  function Outcome(c: Channel, q: Publisher): Delivered {
    match q.stage
    case FirstSend => if !c.Wants(q.event.kind) then Unwanted else if !c.Full() then Sent else Pending
    case Displace => Pending
    case SecondSend(_) => if !c.Full() then Sent else Refused
  }

  lemma DeliverKeeps(c: Channel, q: Publisher)
    requires c.sent == Events(c.gone) + c.buffer && |c.buffer| <= SUBSCRIBER_BUFFER
    ensures var (d, q') := Deliver(c, q);
            var o := Outcome(c, q);
            && d.open == c.open && d.kinds == c.kinds
            && d.sent == Events(d.gone) + d.buffer && |d.buffer| <= SUBSCRIBER_BUFFER
            && d.sent == c.sent + (if o == Sent then [q.event] else [])
            && d.refused == c.refused + (if o == Refused then [q.event] else [])
            && q'.event == q.event
            && q'.at == (if o == Pending then q.at else q.at + 1)
            && (q'.stage != FirstSend ==> o == Pending && (q.stage == FirstSend ==> c.Wants(q.event.kind)))
  {
    TakeKeeps(c, Displaced);
    SendKeeps(c, q.event);
    assert c.sent + [] == c.sent && c.refused + [] == c.refused;
  }

  lemma SendKeeps(c: Channel, e: Event)
    requires c.sent == Events(c.gone) + c.buffer
    ensures c.Send(e).sent == c.sent + [e] == Events(c.gone) + c.Send(e).buffer
  {}

  lemma DeliverCounts(c: Channel, q: Publisher)
    requires c.sent == Events(c.gone) + c.buffer
    ensures var d := Deliver(c, q).0;
            && d.dropped == c.dropped + (if q.stage.SecondSend? then 1 else 0)
            && |d.refused| == |c.refused| + (if q.stage.SecondSend? && c.Full() then 1 else 0)
            && CountDisplaced(d.gone) == CountDisplaced(c.gone) + (if q.stage == Displace && c.buffer != [] then 1 else 0)
  {
    TakeKeeps(c, Displaced);
  }

  lemma AdvanceTally(b: Bus, p: nat, j: int)
    requires p in b.inside && b.inside[p].at < |b.channels| && 0 <= j < |b.channels|
    ensures var n, q := Next(b, Advance(p)), b.inside[p];
            |Displacing(n, j)| == |Displacing(b, j)|
              + (if j == q.at && q.stage == Displace && b.channels[q.at].buffer != [] then 1 else 0)
              - (if j == q.at && q.stage == SecondSend(true) then 1 else 0)
  {
    var q' := Deliver(b.channels[b.inside[p].at], b.inside[p]).1;
    OneMoves(b.inside, p, q', j);
    assert Next(b, Advance(p)).inside == b.inside[p := q'];
  }

  lemma OneMoves(inside: map<nat, Publisher>, p: nat, q': Publisher, j: int)
    requires p in inside
    ensures |Displacers(inside[p := q'], j)| == |Displacers(inside, j)|
              + (if HasDisplaced(q', j) then 1 else 0) - (if HasDisplaced(inside[p], j) then 1 else 0)
  {
    var was, is_ := Displacers(inside, j), Displacers(inside[p := q'], j);
    assert p in was <==> HasDisplaced(inside[p], j);
    assert p in is_ <==> HasDisplaced(q', j);
    if p in was && p in is_ {
      assert is_ == was;
    } else if p in is_ {
      assert is_ == was + {p};
    } else if p in was {
      assert is_ == was - {p};
    } else {
      assert is_ == was;
    }
  }

  /** The tallies survive an operation on the channel a publisher has reached, and on every other. */
  lemma AdvanceKeepsTally(b: Bus, p: nat, j: int)
    requires Inv(b) && p in b.inside && b.inside[p].at < |b.channels| && 0 <= j < |b.channels|
    ensures TallyInv(Next(b, Advance(p)), j)
  {
    var i := b.inside[p].at;
    assert ChannelInv(b, i) && TallyInv(b, j);
    DeliverCounts(b.channels[i], b.inside[p]);
    AdvanceTally(b, p, j);
  }

  lemma StillDistinct(sent: seq<Event>, refused: seq<Event>, e: Event)
    requires Distinct(sent + refused) && e !in sent + refused
    ensures Distinct((sent + [e]) + refused) && Distinct(sent + (refused + [e]))
    ensures forall f :: f in (sent + [e]) + refused <==> f in sent + refused || f == e
    ensures forall f :: f in sent + (refused + [e]) <==> f in sent + refused || f == e
  {
    var all := sent + refused;
    var s := (sent + [e]) + refused;
    forall x, y | 0 <= x < y < |s| ensures s[x] != s[y] {
      assert x != |sent| ==> s[x] == all[if x < |sent| then x else x - 1];
      assert y != |sent| ==> s[y] == all[if y < |sent| then y else y - 1];
      assert s[|sent|] == e;
    }
    assert sent + (refused + [e]) == all + [e];
  }

  /** What one operation does at the channel the publisher has reached. */
  lemma AdvanceHere(b: Bus, p: nat)
    requires Inv(b) && p in b.inside && b.inside[p].at < |b.channels|
    ensures var n, i := Next(b, Advance(p)), b.inside[p].at;
            ChannelInv(n, i)
    ensures var n, i := Next(b, Advance(p)), b.inside[p].at;
            forall e :: e in n.channels[i].sent + n.channels[i].refused <==>
              e in b.channels[i].sent + b.channels[i].refused
              || (e == b.inside[p].event && Outcome(b.channels[i], b.inside[p]) in {Sent, Refused})
  {
    var n, i := Next(b, Advance(p)), b.inside[p].at;
    var c, q := b.channels[i], b.inside[p];
    assert ChannelInv(b, i) && PublisherInv(b, p);
    DeliverKeeps(c, q);
    StillDistinct(c.sent, c.refused, q.event);
    assert c.sent + [] == c.sent && c.refused + [] == c.refused;
    forall e ensures Meant(n, i, e) <==> Meant(b, i, e) {}
    assert Outcome(c, q) in {Sent, Refused} ==> Meant(b, i, q.event);
  }

  lemma AdvanceConserves(b: Bus, p: nat, j: int)
    requires Inv(b) && p in b.inside && b.inside[p].at < |b.channels| && 0 <= j < |b.channels|
    ensures Conserved(Next(b, Advance(p)), j)
  {
    var n, i := Next(b, Advance(p)), b.inside[p].at;
    var c, q := b.channels[i], b.inside[p];
    assert ChannelInv(b, i) && PublisherInv(b, p) && Conserved(b, j);
    DeliverKeeps(c, q);
    AdvanceHere(b, p);
    forall e | Meant(n, j, e) ensures e in n.channels[j].sent + n.channels[j].refused || Owed(n, j, e) {
      assert Meant(b, j, e);
      if e !in b.channels[j].sent + b.channels[j].refused {
        var r :| Carries(b, r, j, e);
        assert Carries(n, r, j, e) || (r == p && j == i && Outcome(c, q) in {Sent, Refused});
      }
    }
  }

  lemma AdvanceElsewhere(b: Bus, p: nat, j: int)
    requires Inv(b) && p in b.inside && b.inside[p].at < |b.channels| && 0 <= j < |b.channels| && j != b.inside[p].at
    ensures ChannelInv(Next(b, Advance(p)), j)
  {
    var n := Next(b, Advance(p));
    assert ChannelInv(b, j);
    assert n.channels[j] == b.channels[j];
    forall e ensures Meant(n, j, e) <==> Meant(b, j, e) {}
  }

  lemma AdvancePublisher(b: Bus, p: nat, r: nat)
    requires Inv(b) && p in b.inside && b.inside[p].at < |b.channels| && r in b.inside
    ensures PublisherInv(Next(b, Advance(p)), r)
  {
    var n, i := Next(b, Advance(p)), b.inside[p].at;
    assert ChannelInv(b, i) && PublisherInv(b, p) && PublisherInv(b, r);
    DeliverKeeps(b.channels[i], b.inside[p]);
    AdvanceHere(b, p);
    assert r != p ==> b.inside[r].event != b.inside[p].event;
  }

  lemma AdvanceKeepsInv(b: Bus, p: nat)
    requires Inv(b) && p in b.inside && b.inside[p].at < |b.channels|
    ensures Inv(Next(b, Advance(p)))
  {
    var n, i := Next(b, Advance(p)), b.inside[p].at;
    forall j | 0 <= j < |n.channels| ensures ChannelInv(n, j) && Conserved(n, j) && TallyInv(n, j) {
      AdvanceKeepsTally(b, p, j);
      AdvanceConserves(b, p, j);
      if j == i {
        AdvanceHere(b, p);
      } else {
        AdvanceElsewhere(b, p, j);
      }
    }
    forall r | r in n.inside ensures PublisherInv(n, r) {
      AdvancePublisher(b, p, r);
    }
    assert ChannelInv(b, i);
    DeliverKeeps(b.channels[i], b.inside[p]);
  }

  /** Steps that leave a channel as it is, its subscription and the log included, keep what is known of it. */
  lemma SameChannel(b: Bus, n: Bus, j: int)
    requires 0 <= j < |b.channels| && |b.since| == |b.channels| && ChannelInv(b, j)
    requires j < |n.channels| && |n.since| == |n.channels| && n.since[j] == b.since[j]
    requires n.channels[j] == b.channels[j] && b.log <= n.log && n.closed == b.closed
    ensures ChannelInv(n, j)
  {
    forall e ensures Meant(b, j, e) ==> Meant(n, j, e) {}
  }

  /** What is carried past a channel is carried past it still, whoever else comes or goes. */
  lemma StillConserved(b: Bus, n: Bus, j: int)
    requires 0 <= j < |b.channels| && |b.since| == |b.channels| && Conserved(b, j)
    requires j < |n.channels| && |n.since| == |n.channels| && n.since[j] == b.since[j] && n.log == b.log
    requires n.channels[j].kinds == b.channels[j].kinds
    requires n.channels[j].sent == b.channels[j].sent && n.channels[j].refused == b.channels[j].refused
    requires forall r :: r in b.inside && b.inside[r].at <= j ==> r in n.inside && n.inside[r] == b.inside[r]
    ensures Conserved(n, j)
  {
    forall e | Meant(n, j, e) ensures e in n.channels[j].sent + n.channels[j].refused || Owed(n, j, e) {
      assert Meant(b, j, e);
      if r :| Carries(b, r, j, e) {
        assert Carries(n, r, j, e);
      }
    }
  }

  lemma LeaveKeepsChannel(b: Bus, p: nat, j: int)
    requires Inv(b) && p in b.inside && b.inside[p].at >= |b.channels| && 0 <= j < |b.channels|
    ensures var n := Next(b, Advance(p)); ChannelInv(n, j) && Conserved(n, j) && TallyInv(n, j)
  {
    var n := Next(b, Advance(p));
    assert ChannelInv(b, j) && Conserved(b, j) && TallyInv(b, j);
    SameChannel(b, n, j);
    assert Displacing(n, j) == Displacing(b, j);
    StillConserved(b, n, j);
  }

  lemma LeaveKeepsInv(b: Bus, p: nat)
    requires Inv(b) && p in b.inside && b.inside[p].at >= |b.channels|
    ensures Inv(Next(b, Advance(p)))
  {
    var n := Next(b, Advance(p));
    forall j | 0 <= j < |n.channels| ensures ChannelInv(n, j) && Conserved(n, j) && TallyInv(n, j) {
      LeaveKeepsChannel(b, p, j);
    }
    forall r | r in n.inside ensures PublisherInv(n, r) {
      assert PublisherInv(b, r);
    }
  }

  lemma PublishConserves(b: Bus, p: nat, kind: Kind, j: int)
    requires Inv(b) && !b.closed && p !in b.inside && 0 <= j < |b.channels|
    ensures Conserved(Next(b, Publish(p, kind)), j)
  {
    var n := Next(b, Publish(p, kind));
    assert Conserved(b, j);
    forall e | Meant(n, j, e) ensures e in n.channels[j].sent + n.channels[j].refused || Owed(n, j, e) {
      if e == n.inside[p].event {
        assert Carries(n, p, j, e);
      } else {
        assert Meant(b, j, e);
        if r :| Carries(b, r, j, e) {
          assert Carries(n, r, j, e);
        }
      }
    }
  }

  lemma PublishKeepsPublishers(b: Bus, p: nat, kind: Kind, r: nat)
    requires Inv(b) && !b.closed && p !in b.inside && (r == p || r in b.inside)
    ensures PublisherInv(Next(b, Publish(p, kind)), r)
    ensures r != p ==> b.inside[r].event.serial < |b.log|
  {
    var n := Next(b, Publish(p, kind));
    if r != p {
      assert PublisherInv(b, r);
    } else {
      forall j | 0 <= j < |n.channels| ensures n.inside[p].event !in n.channels[j].sent + n.channels[j].refused {
        assert ChannelInv(b, j);
      }
    }
  }

  lemma PublishKeepsChannel(b: Bus, p: nat, kind: Kind, j: int)
    requires Inv(b) && !b.closed && p !in b.inside && 0 <= j < |b.channels|
    ensures var n := Next(b, Publish(p, kind)); ChannelInv(n, j) && Conserved(n, j) && TallyInv(n, j)
  {
    var n := Next(b, Publish(p, kind));
    assert ChannelInv(b, j) && TallyInv(b, j);
    SameChannel(b, n, j);
    PublishConserves(b, p, kind, j);
    assert Displacing(n, j) == Displacing(b, j);
  }

  lemma PublishKeepsInv(b: Bus, p: nat, kind: Kind)
    requires Inv(b)
    ensures Inv(Next(b, Publish(p, kind)))
  {
    var n := Next(b, Publish(p, kind));
    if !b.closed && p !in b.inside {
      forall j | 0 <= j < |n.channels| ensures ChannelInv(n, j) && Conserved(n, j) && TallyInv(n, j) {
        PublishKeepsChannel(b, p, kind, j);
      }
      forall r | r in n.inside ensures PublisherInv(n, r) && (r != p ==> b.inside[r].event.serial < |b.log|) {
        PublishKeepsPublishers(b, p, kind, r);
      }
    }
  }

  lemma ReceiveHere(b: Bus, i: nat)
    requires Inv(b) && i < |b.channels|
    ensures ChannelInv(Next(b, Receive(i)), i)
    ensures var c := b.channels[i]; var d := c.TakeOldest(Consumed);
            d.sent == c.sent && d.refused == c.refused && d.dropped == c.dropped
            && CountDisplaced(d.gone) == CountDisplaced(c.gone)
  {
    var n := Next(b, Receive(i));
    assert ChannelInv(b, i);
    TakeKeeps(b.channels[i], Consumed);
    forall e ensures Meant(n, i, e) <==> Meant(b, i, e) {}
  }

  lemma ReceiveKeepsChannel(b: Bus, i: nat, j: int)
    requires Inv(b) && i < |b.channels| && 0 <= j < |b.channels|
    ensures var n := Next(b, Receive(i)); ChannelInv(n, j) && Conserved(n, j) && TallyInv(n, j)
  {
    var n := Next(b, Receive(i));
    assert ChannelInv(b, j) && Conserved(b, j) && TallyInv(b, j);
    ReceiveHere(b, i);
    if j != i {
      SameChannel(b, n, j);
    }
    assert Displacing(n, j) == Displacing(b, j);
    StillConserved(b, n, j);
  }

  lemma ReceiveKeepsInv(b: Bus, i: nat)
    requires Inv(b) && i < |b.channels|
    ensures Inv(Next(b, Receive(i)))
  {
    var n := Next(b, Receive(i));
    forall j | 0 <= j < |n.channels| ensures ChannelInv(n, j) && Conserved(n, j) && TallyInv(n, j) {
      ReceiveKeepsChannel(b, i, j);
    }
    forall r | r in n.inside ensures PublisherInv(n, r) {
      assert PublisherInv(b, r);
      ReceiveHere(b, i);
    }
  }

  lemma SubscribeKeepsInv(b: Bus, kinds: Option<set<Kind>>)
    requires Inv(b)
    ensures Inv(Next(b, Subscribe(kinds)))
  {
    var n := Next(b, Subscribe(kinds));
    if b.inside == map[] {
      forall j | 0 <= j < |n.channels| ensures ChannelInv(n, j) && Conserved(n, j) && TallyInv(n, j) {
        if j < |b.channels| {
          assert ChannelInv(b, j) && Conserved(b, j) && TallyInv(b, j);
          SameChannel(b, n, j);
          assert Displacing(n, j) == Displacing(b, j);
          StillConserved(b, n, j);
        }
      }
    }
  }

  lemma CloseKeepsInv(b: Bus)
    requires Inv(b)
    ensures Inv(Next(b, Close))
  {
    var n := Next(b, Close);
    if b.inside == map[] && !b.closed {
      forall j | 0 <= j < |n.channels| ensures ChannelInv(n, j) && Conserved(n, j) && TallyInv(n, j) {
        assert ChannelInv(b, j) && Conserved(b, j) && TallyInv(b, j);
        forall e ensures Meant(n, j, e) <==> Meant(b, j, e) {}
        assert Displacing(n, j) == Displacing(b, j);
        StillConserved(b, n, j);
      }
    }
  }

  lemma NextKeepsInv(b: Bus, a: Action)
    requires Inv(b)
    ensures Inv(Next(b, a))
  {
    match a
    case Publish(p, kind) => PublishKeepsInv(b, p, kind);
    case Advance(p) =>
      if p in b.inside {
        if b.inside[p].at < |b.channels| {
          AdvanceKeepsInv(b, p);
        } else {
          LeaveKeepsInv(b, p);
        }
      }
    case Receive(i) =>
      if i < |b.channels| {
        ReceiveKeepsInv(b, i);
      }
    case Subscribe(kinds) => SubscribeKeepsInv(b, kinds);
    case Close => CloseKeepsInv(b);
  }

  lemma {:induction false} RunKeepsInv(b: Bus, actions: seq<Action>)
    requires Inv(b)
    ensures Inv(RunFrom(b, actions))
    decreases |actions|
  {
    if actions != [] {
      RunKeepsInv(b, actions[..|actions| - 1]);
      NextKeepsInv(RunFrom(b, actions[..|actions| - 1]), actions[|actions| - 1]);
    }
  }

  lemma EveryRunKeepsInv(actions: seq<Action>)
    ensures Inv(Run(actions))
  {
    RunKeepsInv(NEW_BUS, actions);
  }

  // ---- a delivery on its own

  /** A delivery that nothing comes between. */
  function Undisturbed(c: Channel, e: Event): Channel {
    if !c.Wants(e.kind) then c
    else if !c.Full() then c.Send(e)
    else c.TakeOldest(Displaced).Send(e).(dropped := c.dropped + 1)
  }

  /**
    What a delivery comes to: nothing for a subscriber that named kinds and not this one;
    otherwise the event is the newest of the buffer, and if there was no room the oldest has
    made way for it and is counted.
   */
  predicate DeliveredTo(before: Channel, e: Event, after: Channel) {
    if before.kinds.Some? && e.kind !in before.kinds.value then after == before
    else
      && after.kinds == before.kinds && after.open == before.open
      && if |before.buffer| < 256
         then after.buffer == before.buffer + [e] && after.dropped == before.dropped
         else after.buffer == before.buffer[1..] + [e] && after.dropped == before.dropped + 1
  }

  lemma UndisturbedMeans(c: Channel, e: Event)
    ensures DeliveredTo(c, e, Undisturbed(c, e))
  {}

  /** It is the same delivery taken one atomic operation at a time. */
  lemma UndisturbedIsThreeSteps(c: Channel, e: Event, at: nat)
    requires |c.buffer| <= SUBSCRIBER_BUFFER
    ensures var (c1, q1) := Deliver(c, Publisher(e, at, FirstSend));
            var (c2, q2) := Deliver(c1, q1);
            var (c3, q3) := Deliver(c2, q2);
            if q1.at == at + 1 then c1 == Undisturbed(c, e) else q3.at == at + 1 && c3 == Undisturbed(c, e)
  {}

  /** What is left for a publisher to do before it leaves, at three operations to a channel. */
  function Ahead(b: Bus, p: nat): nat {
    if p !in b.inside then 0
    else if b.inside[p].at >= |b.channels| then 1
    else
      var q := b.inside[p];
      1 + 3 * (|b.channels| - q.at) - (match q.stage case FirstSend => 0 case Displace => 1 case SecondSend(_) => 2)
  }

  /** The publisher runs to the end of its Publish with nothing coming between. */
  function Alone(b: Bus, p: nat): Bus
    decreases Ahead(b, p)
  {
    if p !in b.inside then b else Alone(Next(b, Advance(p)), p)
  }

  function DeliveredFrom(channels: seq<Channel>, at: nat, e: Event): seq<Channel> {
    seq(|channels|, i requires 0 <= i < |channels| => if i < at then channels[i] else Undisturbed(channels[i], e))
  }

  /** One channel's worth of a lone Publish, whether it takes one operation or three. */
  lemma AloneAtOne(b: Bus, p: nat)
    requires p in b.inside && b.inside[p].stage == FirstSend && b.inside[p].at < |b.channels|
    requires |b.channels[b.inside[p].at].buffer| <= SUBSCRIBER_BUFFER
    ensures var q := b.inside[p];
            Alone(b, p) == Alone(b.(channels := b.channels[q.at := Undisturbed(b.channels[q.at], q.event)],
                                    inside := b.inside[p := q.(at := q.at + 1)]), p)
  {
    var q := b.inside[p];
    var c := b.channels[q.at];
    var target := b.(channels := b.channels[q.at := Undisturbed(c, q.event)], inside := b.inside[p := q.(at := q.at + 1)]);
    UndisturbedIsThreeSteps(c, q.event, q.at);
    var b1 := Next(b, Advance(p));
    if b1.inside[p].at == q.at {
      var b2 := Next(b1, Advance(p));
      var b3 := Next(b2, Advance(p));
      assert Alone(b, p) == Alone(b1, p) == Alone(b2, p) == Alone(b3, p);
      assert b3.channels == target.channels;
      assert b3.inside == target.inside;
    } else {
      assert b1.channels == target.channels;
    }
  }

  /** A Publish that nothing comes between delivers undisturbed to every channel, then leaves. */
  lemma {:induction false} AloneDeliversToAll(b: Bus, p: nat)
    requires p in b.inside && b.inside[p].stage == FirstSend && b.inside[p].at <= |b.channels|
    requires forall c :: c in b.channels ==> |c.buffer| <= SUBSCRIBER_BUFFER
    ensures var q := b.inside[p];
            Alone(b, p) == b.(channels := DeliveredFrom(b.channels, q.at, q.event), inside := b.inside - {p})
    decreases |b.channels| - b.inside[p].at
  {
    var q := b.inside[p];
    if q.at == |b.channels| {
      assert Alone(b, p) == Next(b, Advance(p));
      assert DeliveredFrom(b.channels, q.at, q.event) == b.channels;
    } else {
      AloneAtOne(b, p);
      var channels := b.channels[q.at := Undisturbed(b.channels[q.at], q.event)];
      var n := b.(channels := channels, inside := b.inside[p := q.(at := q.at + 1)]);
      AloneDeliversToAll(n, p);
      assert DeliveredFrom(channels, q.at + 1, q.event) == DeliveredFrom(b.channels, q.at, q.event);
      assert n.inside - {p} == b.inside - {p};
    }
  }
}
