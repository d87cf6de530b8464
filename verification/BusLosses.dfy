/**
  What becomes of published events in every interleaving of the bus: none goes missing
  unaccounted, what is received comes in order, and how the drop count relates to the loss.
 */
module BusLosses {
  import opened Options
  import opened EventBus

  // ---- what was meant for a subscriber

  /** Of what was published from a point on, the events of the kinds asked for, in order. */
  function WantedOf(log: seq<Event>, from: nat, kinds: Option<set<Kind>>): seq<Event>
    decreases |log|
  {
    if |log| <= from then []
    else
      var n := |log| - 1;
      WantedOf(log[..n], from, kinds) + if Asked(kinds, log[n].kind) then [log[n]] else []
  }

  /** Everything published since channel i subscribed that it asked for. */
  function Wanted(b: Bus, i: nat): seq<Event>
    requires i < |b.channels| && i < |b.since|
  {
    WantedOf(b.log, b.since[i], b.channels[i].kinds)
  }

  ghost predicate Numbered(log: seq<Event>) {
    forall k :: 0 <= k < |log| ==> log[k].serial == k
  }

  lemma {:induction false} WantedHas(log: seq<Event>, from: nat, kinds: Option<set<Kind>>, e: Event)
    requires Numbered(log)
    ensures e in WantedOf(log, from, kinds) <==>
              from <= e.serial < |log| && log[e.serial] == e && Asked(kinds, e.kind)
    decreases |log|
  {
    if |log| > from {
      var n := |log| - 1;
      WantedHas(log[..n], from, kinds, e);
      assert log[n].serial == n;
    }
  }

  lemma WantedIsMeant(b: Bus, i: nat, e: Event)
    requires Shaped(b) && i < |b.channels|
    ensures e in Wanted(b, i) <==> Meant(b, i, e)
  {
    WantedHas(b.log, b.since[i], b.channels[i].kinds, e);
  }

  lemma {:induction false} WantedOnce(log: seq<Event>, from: nat, kinds: Option<set<Kind>>)
    requires Numbered(log)
    ensures Distinct(WantedOf(log, from, kinds))
    decreases |log|
  {
    if |log| > from {
      var n := |log| - 1;
      WantedOnce(log[..n], from, kinds);
      var before := WantedOf(log[..n], from, kinds);
      forall x | 0 <= x < |before| ensures before[x] != log[n] {
        WantedHas(log[..n], from, kinds, before[x]);
        assert before[x] in before;
        assert log[n].serial == n;
      }
    }
  }

  /**
    Nothing goes missing. In every run, at every moment: the wanted events published since a
    channel subscribed are exactly those sent to it, those refused, and those that publishers
    inside carry and have not yet brought past it; no event is in two of these or twice in one.
   */
  lemma NothingGoesMissing(actions: seq<Action>, i: nat)
    requires i < |Run(actions).channels|
    ensures var b := Run(actions);
            var c := b.channels[i];
            && |b.since| == |b.channels|
            && Distinct(Wanted(b, i)) && Distinct(c.sent + c.refused)
            && (forall e :: e in Wanted(b, i) <==>
                  b.since[i] <= e.serial && Published(b, e) && (c.kinds.None? || e.kind in c.kinds.value))
            && (forall e :: e in Wanted(b, i) <==>
                  e in c.sent + c.refused || (Owed(b, i, e) && (c.kinds.None? || e.kind in c.kinds.value)))
            && (forall e :: e in c.sent + c.refused ==> !Owed(b, i, e))
  {
    EveryRunKeepsInv(actions);
    var b := Run(actions);
    WantedOnce(b.log, b.since[i], b.channels[i].kinds);
    assert ChannelInv(b, i) && Conserved(b, i);
    forall e ensures e in Wanted(b, i) <==> Meant(b, i, e) {
      WantedIsMeant(b, i, e);
    }
    forall e ensures Owed(b, i, e) ==>
                       e !in b.channels[i].sent + b.channels[i].refused
                       && b.since[i] <= e.serial && Published(b, e)
    {
      if p :| Carries(b, p, i, e) {
        assert PublisherInv(b, p);
      }
    }
  }

  // ---- what a consumer receives

  lemma LeftHas(gone: seq<Gone>, fate: Fate, e: Event)
    ensures e in Left(gone, fate) <==> Gone(e, fate) in gone
  {
    var at := PlacesOf(gone, fate);
    if k: nat :| k < |gone| && gone[k] == Gone(e, fate) {
      var x :| 0 <= x < |at| && at[x] == k;
      assert Left(gone, fate)[x] == e;
    }
  }

  lemma {:induction false} TwoWaysOut(gone: seq<Gone>)
    ensures |PlacesOf(gone, Consumed)| + |PlacesOf(gone, Displaced)| == |gone|
    decreases |gone|
  {
    if gone != [] {
      TwoWaysOut(gone[..|gone| - 1]);
    }
  }

  /**
    In every run, at every moment and for every subscriber: no event is received twice or
    out of the order of sending, each is of a kind asked for, and everything sent was
    received, displaced, or is still in the buffer, which never exceeds its size.
   */
  lemma ReceivedInOrder(actions: seq<Action>, i: nat)
    requires i < |Run(actions).channels|
    ensures var c := Run(actions).channels[i];
            var at, received := PlacesOf(c.gone, Consumed), Left(c.gone, Consumed);
            && |c.buffer| <= SUBSCRIBER_BUFFER
            && |c.sent| == |received| + CountDisplaced(c.gone) + |c.buffer|
            && (forall x :: 0 <= x < |at| ==> at[x] < |c.sent| && received[x] == c.sent[at[x]])
            && (forall x, y :: 0 <= x < y < |at| ==> at[x] < at[y] && received[x] != received[y])
            && (forall e :: e in received || e in c.buffer ==> c.kinds.None? || e.kind in c.kinds.value)
  {
    EveryRunKeepsInv(actions);
    var b := Run(actions);
    var c := b.channels[i];
    assert ChannelInv(b, i);
    TwoWaysOut(c.gone);
    var at, received := PlacesOf(c.gone, Consumed), Left(c.gone, Consumed);
    forall x | 0 <= x < |at| ensures at[x] < |c.sent| && received[x] == c.sent[at[x]] && c.Wants(received[x].kind) {
      assert c.sent[at[x]] == Events(c.gone)[at[x]];
      assert c.sent[at[x]] in c.sent + c.refused;
      assert Meant(b, i, c.sent[at[x]]);
    }
    forall e | e in c.buffer ensures c.kinds.None? || e.kind in c.kinds.value {
      assert e in c.sent + c.refused;
      assert Meant(b, i, e);
    }
    forall x, y | 0 <= x < y < |at| ensures received[x] != received[y] {
      assert (c.sent + c.refused)[at[x]] != (c.sent + c.refused)[at[y]];
    }
  }

  // ---- the order of sending

  /** Wherever both stand, e stands first. */
  ghost predicate Precedes(s: seq<Event>, e: Event, f: Event) {
    forall x, y :: 0 <= x < |s| && 0 <= y < |s| && s[x] == e && s[y] == f ==> x < y
  }

  /** Published, and no publisher inside is still bringing it round. */
  ghost predicate Delivered(b: Bus, e: Event) {
    Published(b, e) && forall p :: p in b.inside ==> b.inside[p].event != e
  }

  /** A step adds to what a channel was sent at most the event of the publisher it advances. */
  lemma StepSends(b: Bus, a: Action, i: nat)
    requires Inv(b) && i < |b.channels|
    ensures var n := Next(b, a);
            && i < |n.channels|
            && (|| n.channels[i].sent == b.channels[i].sent
                || (a.Advance? && a.p in b.inside
                    && n.channels[i].sent == b.channels[i].sent + [b.inside[a.p].event]))
  {
    assert ChannelInv(b, i);
    match a
    case Advance(p) =>
      if p in b.inside && b.inside[p].at == i {
        DeliverKeeps(b.channels[i], b.inside[p]);
      }
    case _ =>
  }

  /** What has been brought round stays so: no later publication is it. */
  lemma StaysDelivered(b: Bus, a: Action, e: Event)
    requires Inv(b) && Delivered(b, e)
    ensures Delivered(Next(b, a), e)
  {
    var n := Next(b, a);
    forall r | r in n.inside ensures n.inside[r].event != e {
      if r in b.inside {
        assert b.inside[r].event != e;
      }
    }
  }

  lemma StepKeepsOrder(b: Bus, a: Action, i: nat, e: Event, f: Event)
    requires Inv(b) && Delivered(b, e) && i < |Next(b, a).channels|
    requires i < |b.channels| ==> Precedes(b.channels[i].sent, e, f)
    ensures Precedes(Next(b, a).channels[i].sent, e, f)
  {
    if i < |b.channels| {
      StepSends(b, a, i);
    }
  }

  lemma {:induction false} KeepsOrder(b: Bus, rest: seq<Action>, i: nat, e: Event, f: Event)
    requires Inv(b) && Delivered(b, e) && f.serial >= |b.log| && i < |RunFrom(b, rest).channels|
    ensures Precedes(RunFrom(b, rest).channels[i].sent, e, f)
    ensures Delivered(RunFrom(b, rest), e)
    decreases |rest|
  {
    if rest == [] {
      assert ChannelInv(b, i);
      assert f !in b.channels[i].sent + b.channels[i].refused;
    } else {
      var n := |rest| - 1;
      var mid := RunFrom(b, rest[..n]);
      RunKeepsInv(b, rest[..n]);
      StillDelivered(b, rest[..n], e);
      StaysDelivered(mid, rest[n], e);
      if i < |mid.channels| {
        KeepsOrder(b, rest[..n], i, e, f);
      }
      StepKeepsOrder(mid, rest[n], i, e, f);
    }
  }

  lemma {:induction false} StillDelivered(b: Bus, rest: seq<Action>, e: Event)
    requires Inv(b) && Delivered(b, e)
    ensures Delivered(RunFrom(b, rest), e)
    decreases |rest|
  {
    if rest != [] {
      var n := |rest| - 1;
      StillDelivered(b, rest[..n], e);
      RunKeepsInv(b, rest[..n]);
      StaysDelivered(RunFrom(b, rest[..n]), rest[n], e);
    }
  }

  /**
    Publication order reaches every subscriber when publications do not overlap: in any run,
    an event whose publisher had left before another was published is sent before it, and
    received before it, on every channel that is sent or receives both.
   */
  lemma OrderOfPublication(before: seq<Action>, rest: seq<Action>, i: nat, e: Event, f: Event)
    requires Delivered(Run(before), e) && f.serial >= |Run(before).log|
    requires i < |Run(before + rest).channels|
    ensures var c := Run(before + rest).channels[i];
            Precedes(c.sent, e, f) && Precedes(Left(c.gone, Consumed), e, f)
  {
    EveryRunKeepsInv(before);
    RunOn(NEW_BUS, before, rest);
    KeepsOrder(Run(before), rest, i, e, f);
    EveryRunKeepsInv(before + rest);
    assert ChannelInv(Run(before + rest), i);
    ReceivedInOrderSent(Run(before + rest).channels[i], e, f);
  }

  lemma ReceivedInOrderSent(c: Channel, e: Event, f: Event)
    requires c.sent == Events(c.gone) + c.buffer && Precedes(c.sent, e, f)
    ensures Precedes(Left(c.gone, Consumed), e, f)
  {
    var at := PlacesOf(c.gone, Consumed);
    forall x | 0 <= x < |at| ensures at[x] < |c.sent| && Left(c.gone, Consumed)[x] == c.sent[at[x]] {
      assert c.sent[at[x]] == Events(c.gone)[at[x]];
    }
    PickedInOrder(c.sent, at, Left(c.gone, Consumed), e, f);
  }

  /** What is picked out of a sequence in rising places comes in the same order. */
  lemma PickedInOrder(s: seq<Event>, at: seq<nat>, picked: seq<Event>, e: Event, f: Event)
    requires Precedes(s, e, f) && |picked| == |at|
    requires forall x :: 0 <= x < |at| ==> at[x] < |s| && picked[x] == s[at[x]]
    requires forall x, y :: 0 <= x < y < |at| ==> at[x] < at[y]
    ensures Precedes(picked, e, f)
  {}

  /** Two publishers inside at once can be sent the other way round. */
  lemma OverlapCanReverse()
    ensures var b := Run([Subscribe(None), Publish(0, 7), Publish(1, 7), Advance(1), Advance(0)]);
            && b.log == [Event(0, 7), Event(1, 7)]
            && |b.channels| == 1 && b.channels[0].sent == [Event(1, 7), Event(0, 7)]
  {
    var b := Next(NEW_BUS, Subscribe(None));
    RunOn(NEW_BUS, [Subscribe(None), Publish(0, 7), Publish(1, 7)], [Advance(1), Advance(0)]);
    assert [Subscribe(None), Publish(0, 7), Publish(1, 7)] + [Advance(1), Advance(0)]
        == [Subscribe(None), Publish(0, 7), Publish(1, 7), Advance(1), Advance(0)];
    Steps(NEW_BUS, Subscribe(None), Publish(0, 7), Publish(1, 7));
    var both := Next(Next(b, Publish(0, 7)), Publish(1, 7));
    assert both.inside == map[0 := Publisher(Event(0, 7), 0, FirstSend), 1 := Publisher(Event(1, 7), 0, FirstSend)];
    assert [Advance(1), Advance(0)][..1] == [Advance(1)] && [Advance(1)][..0] == [];
    var one := Next(both, Advance(1));
    assert RunFrom(both, [Advance(1)]) == one;
    assert one.channels[0].sent == [Event(1, 7)];
    assert RunFrom(both, [Advance(1), Advance(0)]) == Next(one, Advance(0));
  }

  /** Whenever a publisher is about to send, the channel it would send to is open. */
  lemma NoSendToClosed(actions: seq<Action>, p: nat)
    requires p in Run(actions).inside && Run(actions).inside[p].at < |Run(actions).channels|
    ensures Run(actions).channels[Run(actions).inside[p].at].open
  {
    EveryRunKeepsInv(actions);
    assert ChannelInv(Run(actions), Run(actions).inside[p].at);
  }

  // ---- losses

  /** Published, wanted, no longer on its way, and neither received nor waiting to be. */
  ghost predicate IsLost(b: Bus, i: nat, e: Event)
    requires i < |b.channels| && i < |b.since|
  {
    var c := b.channels[i];
    e in Wanted(b, i) && !Owed(b, i, e) && e !in Left(c.gone, Consumed) && e !in c.buffer
  }

  ghost function Lost(b: Bus, i: nat): set<Event>
    requires i < |b.channels| && i < |b.since|
  {
    set e | e in Wanted(b, i) && IsLost(b, i, e)
  }

  lemma {:induction false} DistinctSize(s: seq<Event>)
    requires Distinct(s)
    ensures |set e | e in s| == |s|
    decreases |s|
  {
    if s != [] {
      var n := |s| - 1;
      DistinctSize(s[..n]);
      assert s == s[..n] + [s[n]];
      assert (set e | e in s) == (set e | e in s[..n]) + {s[n]};
    }
  }

  /** What was displaced and what was refused. */
  function Casualties(c: Channel): seq<Event> {
    Left(c.gone, Displaced) + c.refused
  }

  lemma CasualtiesOnce(b: Bus, i: nat)
    requires Inv(b) && i < |b.channels|
    ensures Distinct(Casualties(b.channels[i]))
  {
    var c := b.channels[i];
    assert ChannelInv(b, i);
    var at, all, s := PlacesOf(c.gone, Displaced), c.sent + c.refused, Casualties(c);
    forall x, y | 0 <= x < y < |s| ensures s[x] != s[y] {
      var u := if x < |at| then at[x] else |c.sent| + (x - |at|);
      var v := if y < |at| then at[y] else |c.sent| + (y - |at|);
      assert x < |at| ==> c.sent[at[x]] == Events(c.gone)[at[x]];
      assert y < |at| ==> c.sent[at[y]] == Events(c.gone)[at[y]];
      assert all[u] == s[x] && all[v] == s[y] && u < v;
    }
  }

  lemma LostIsCasualty(b: Bus, i: nat, e: Event)
    requires Inv(b) && i < |b.channels|
    ensures IsLost(b, i, e) <==> e in Casualties(b.channels[i])
  {
    var c := b.channels[i];
    assert ChannelInv(b, i) && Conserved(b, i);
    WantedIsMeant(b, i, e);
    LeftHas(c.gone, Consumed, e);
    LeftHas(c.gone, Displaced, e);
    SentIsSomewhere(c, e);
    SentOnce(c, e);
    if p :| Carries(b, p, i, e) {
      assert PublisherInv(b, p);
    }
  }

  /** An event that was sent has left or waits. */
  lemma SentIsSomewhere(c: Channel, e: Event)
    requires c.sent == Events(c.gone) + c.buffer
    ensures e in c.sent <==> Gone(e, Consumed) in c.gone || Gone(e, Displaced) in c.gone || e in c.buffer
  {
    if k: nat :| k < |c.gone| && c.gone[k].event == e {
      assert Events(c.gone)[k] == e;
      match c.gone[k].fate
      case Consumed => assert c.gone[k] == Gone(e, Consumed);
      case Displaced => assert c.gone[k] == Gone(e, Displaced);
    }
    assert e in c.sent <==> e in Events(c.gone) || e in c.buffer;
  }

  /** Of events that are all distinct, one among the first is not among the others. */
  lemma InOnePart(a: seq<Event>, b: seq<Event>, e: Event)
    requires Distinct(a + b) && e in a
    ensures e !in b
  {
    var x :| 0 <= x < |a| && a[x] == e;
    forall y | 0 <= y < |b| ensures b[y] != e {
      assert (a + b)[x] != (a + b)[|a| + y];
    }
  }

  lemma LeftOneWay(gone: seq<Gone>, rest: seq<Event>, e: Event)
    requires Distinct(Events(gone) + rest) && Gone(e, Displaced) in gone
    ensures Gone(e, Consumed) !in gone && e !in rest
  {
    var all := Events(gone) + rest;
    var x :| 0 <= x < |gone| && gone[x] == Gone(e, Displaced);
    assert Events(gone)[x] == e;
    InOnePart(Events(gone), rest, e);
    forall y | 0 <= y < |gone| ensures gone[y] != Gone(e, Consumed) {
      assert all[x] == e && all[y] == gone[y].event;
      assert y < x ==> all[y] != all[x];
      assert x < y ==> all[x] != all[y];
    }
  }

  /** It left in one way or waits, and was not refused as well. */
  lemma SentOnce(c: Channel, e: Event)
    requires c.sent == Events(c.gone) + c.buffer && Distinct(c.sent + c.refused)
    ensures Gone(e, Displaced) in c.gone ==> Gone(e, Consumed) !in c.gone && e !in c.buffer && e !in c.refused
    ensures e in c.refused ==> e !in c.sent
  {
    if Gone(e, Displaced) in c.gone {
      assert c.sent + c.refused == Events(c.gone) + (c.buffer + c.refused);
      LeftOneWay(c.gone, c.buffer + c.refused, e);
    }
    if e in c.sent {
      InOnePart(c.sent, c.refused, e);
    }
  }

  /** The loss, taken from what was published, is what was displaced and what was refused. */
  lemma LossIsCounted(b: Bus, i: nat)
    requires Inv(b) && i < |b.channels|
    ensures |Lost(b, i)| == CountDisplaced(b.channels[i].gone) + |b.channels[i].refused|
  {
    var casualties := Casualties(b.channels[i]);
    forall e ensures e in Lost(b, i) <==> e in casualties {
      LostIsCasualty(b, i, e);
    }
    assert Lost(b, i) == set e | e in casualties;
    CasualtiesOnce(b, i);
    DistinctSize(casualties);
  }

  /**
    In every run, once every publisher has left: of the wanted events published since a
    channel subscribed, at most twice as many as it counted as dropped were neither received
    nor are waiting to be.
   */
  lemma LossIsBounded(actions: seq<Action>, i: nat)
    requires Run(actions).inside == map[] && i < |Run(actions).channels|
    ensures var b := Run(actions);
            && |b.since| == |b.channels|
            && (forall e :: e in Wanted(b, i) ==>
                  e in Left(b.channels[i].gone, Consumed) || e in b.channels[i].buffer || e in Lost(b, i))
            && |Lost(b, i)| <= 2 * b.channels[i].dropped
  {
    var b := Run(actions);
    EveryRunKeepsInv(actions);
    LossIsCounted(b, i);
    assert TallyInv(b, i);
    assert Displacing(b, i) == {};
    forall e ensures !Owed(b, i, e) {
      assert forall p :: !Carries(b, p, i, e);
    }
  }

  // ---- what one slow delivery loses

  ghost predicate NotBy(p: nat, actions: seq<Action>) {
    forall k :: 0 <= k < |actions| ==> actions[k] != Advance(p)
  }

  lemma StepStaysPut(b: Bus, a: Action, p: nat)
    requires p in b.inside && a != Advance(p)
    ensures p in Next(b, a).inside && Next(b, a).inside[p] == b.inside[p]
    ensures |Next(b, a).channels| == |b.channels|
  {
    assert b.inside != map[];
  }

  /** A publisher moves on by its own operations only, and nobody subscribes while it is inside. */
  lemma {:induction false} StaysPut(b: Bus, actions: seq<Action>, p: nat)
    requires p in b.inside && NotBy(p, actions)
    ensures var n := RunFrom(b, actions);
            p in n.inside && n.inside[p] == b.inside[p] && |n.channels| == |b.channels|
    decreases |actions|
  {
    if actions != [] {
      var n := |actions| - 1;
      StaysPut(b, actions[..n], p);
      StepStaysPut(RunFrom(b, actions[..n]), actions[n], p);
    }
  }

  /** What one operation of a delivery adds to the loss and to the count. */
  lemma OperationLoses(b: Bus, p: nat)
    requires Inv(b) && p in b.inside && b.inside[p].at < |b.channels|
    ensures var n, q := Next(b, Advance(p)), b.inside[p];
            var c, d := b.channels[q.at], n.channels[q.at];
            && Inv(n) && p in n.inside && |n.channels| == |b.channels|
            && |Lost(n, q.at)| - |Lost(b, q.at)| ==
                 (if q.stage == Displace && c.buffer != [] then 1
                  else if q.stage.SecondSend? && c.Full() then 1 else 0)
            && d.dropped - c.dropped == (if q.stage.SecondSend? then 1 else 0)
            && n.inside[p] == Deliver(c, q).1
  {
    var i := b.inside[p].at;
    NextKeepsInv(b, Advance(p));
    LossIsCounted(b, i);
    LossIsCounted(Next(b, Advance(p)), i);
    assert ChannelInv(b, i);
    DeliverCounts(b.channels[i], b.inside[p]);
  }

  /** The bus at the five moments that matter to a slow delivery. */
  datatype Moments = Moments(full: Bus, between: Bus, taken: Bus, last: Bus, done: Bus)

  function Slowly(start: Bus, mid1: seq<Action>, mid2: seq<Action>, p: nat): Moments {
    var full := Next(start, Advance(p));
    var between := RunFrom(full, mid1);
    var taken := Next(between, Advance(p));
    var last := RunFrom(taken, mid2);
    Moments(full, between, taken, last, Next(last, Advance(p)))
  }

  /**
    The count is of slow deliveries, not of losses. In every run, a delivery is slow exactly
    when its first send finds a wanted event and a full buffer; it then counts one drop,
    whatever others do between its operations, and costs one event if its displacing receive
    finds any, and one if the buffer is full again at its second send.
   */
  lemma SlowDeliveryLoses(actions: seq<Action>, mid1: seq<Action>, mid2: seq<Action>, p: nat)
    requires p in Run(actions).inside && Run(actions).inside[p].at < |Run(actions).channels|
    requires Run(actions).inside[p].stage == FirstSend && NotBy(p, mid1) && NotBy(p, mid2)
    ensures var b, i := Run(actions), Run(actions).inside[p].at;
            var c := b.channels[i];
            var m := Slowly(b, mid1, mid2, p);
            && Inv(b) && Inv(m.full) && |m.full.channels| == |b.channels| && p in m.full.inside
            && |Lost(m.full, i)| == |Lost(b, i)| && m.full.channels[i].dropped == c.dropped
            && (m.full.inside[p].stage == Displace <==> c.Wants(b.inside[p].event.kind) && c.Full())
            && (m.full.inside[p].stage == Displace ==>
                  && Inv(m.between) && Inv(m.taken) && Inv(m.last) && Inv(m.done)
                  && |m.between.channels| == |m.taken.channels| == |m.last.channels| == |m.done.channels| == |b.channels|
                  && |Lost(m.taken, i)| - |Lost(m.between, i)| == (if m.between.channels[i].buffer != [] then 1 else 0)
                  && |Lost(m.done, i)| - |Lost(m.last, i)| == (if m.last.channels[i].Full() then 1 else 0)
                  && m.taken.channels[i].dropped == m.between.channels[i].dropped
                  && m.done.channels[i].dropped == m.last.channels[i].dropped + 1
                  && p in m.done.inside && m.done.inside[p].at == i + 1)
  {
    var b, i := Run(actions), Run(actions).inside[p].at;
    var m := Slowly(b, mid1, mid2, p);
    EveryRunKeepsInv(actions);
    OperationLoses(b, p);
    if m.full.inside[p].stage == Displace {
      StaysPut(m.full, mid1, p);
      RunKeepsInv(m.full, mid1);
      OperationLoses(m.between, p);
      StaysPut(m.taken, mid2, p);
      RunKeepsInv(m.taken, mid2);
      OperationLoses(m.last, p);
    }
  }

  // ---- runs that show it

  /** One publisher, n times over: publish, send at once, leave. */
  function Rounds(n: nat): seq<Action> {
    if n == 0 then [] else Rounds(n - 1) + [Publish(0, 0), Advance(0), Advance(0)]
  }

  function Serials(n: nat): seq<Event> {
    seq(n, k requires 0 <= k < n => Event(k, 0))
  }

  /** One subscriber to everything, with n events waiting. */
  function Waiting(n: nat): Bus {
    Bus([Channel(None, true, Serials(n), 0, Serials(n), [], [])], [0], false, Serials(n), map[])
  }

  lemma Steps(b: Bus, x: Action, y: Action, z: Action)
    ensures RunFrom(b, [x, y, z]) == Next(Next(Next(b, x), y), z)
  {
    assert [x, y, z][..2] == [x, y] && [x, y][..1] == [x] && [x][..0] == [];
    assert RunFrom(b, [x]) == Next(RunFrom(b, [x][..0]), x);
    assert RunFrom(b, [x, y]) == Next(RunFrom(b, [x, y][..1]), y);
  }

  lemma OneRound(n: nat)
    requires n < SUBSCRIBER_BUFFER
    ensures RunFrom(Waiting(n), [Publish(0, 0), Advance(0), Advance(0)]) == Waiting(n + 1)
  {
    var b := Waiting(n);
    Steps(b, Publish(0, 0), Advance(0), Advance(0));
    var e := Event(n, 0);
    assert Serials(n + 1) == Serials(n) + [e];
    var b1 := Next(b, Publish(0, 0));
    assert b1 == b.(log := Serials(n + 1), inside := map[0 := Publisher(e, 0, FirstSend)]);
    var b2 := Next(b1, Advance(0));
    assert b2.channels == Waiting(n + 1).channels;
    assert b2.inside == map[0 := Publisher(e, 1, FirstSend)];
    var b3 := Next(b2, Advance(0));
    assert b3.inside == map[];
  }

  function Filling(n: nat): seq<Action> {
    [Subscribe(None)] + Rounds(n)
  }

  lemma FillingFurther(n: nat)
    ensures Filling(n + 1) == Filling(n) + [Publish(0, 0), Advance(0), Advance(0)]
  {}

  lemma FirstSubscribes()
    ensures Run(Filling(0)) == Waiting(0)
  {
    assert Filling(0) == [Subscribe(None)] && Filling(0)[..0] == [];
    assert Run(Filling(0)) == Next(NEW_BUS, Subscribe(None));
    assert Serials(0) == [];
  }

  /** Up to the size of the buffer, everything sent waits. */
  lemma {:induction false} Filled(n: nat)
    requires n <= SUBSCRIBER_BUFFER
    ensures Run(Filling(n)) == Waiting(n)
  {
    if n == 0 {
      FirstSubscribes();
    } else {
      Filled(n - 1);
      FillingFurther(n - 1);
      RunOn(NEW_BUS, Filling(n - 1), [Publish(0, 0), Advance(0), Advance(0)]);
      OneRound(n - 1);
    }
  }

  function Receives(n: nat): seq<Action> {
    seq(n, _ => Receive(0))
  }

  /** A consumer that takes n events out, whoever is inside. */
  lemma {:induction false} Drained(b: Bus, n: nat)
    requires |b.channels| == 1 && n <= |b.channels[0].buffer|
    ensures var m := RunFrom(b, Receives(n));
            && |m.channels| == 1 && m.inside == b.inside
            && m.channels[0].kinds == b.channels[0].kinds
            && m.channels[0].buffer == b.channels[0].buffer[n..]
            && m.channels[0].dropped == b.channels[0].dropped
            && m.channels[0].refused == b.channels[0].refused
            && CountDisplaced(m.channels[0].gone) == CountDisplaced(b.channels[0].gone)
    decreases n
  {
    if n > 0 {
      Drained(b, n - 1);
      assert Receives(n)[..n - 1] == Receives(n - 1);
      var m := RunFrom(b, Receives(n - 1));
      OneMoreGone(m.channels[0].gone, Gone(m.channels[0].buffer[0], Consumed), Displaced);
    }
  }

  /** The buffer is full, and a publisher has found it so. */
  function Found(): Bus {
    Next(Next(Waiting(SUBSCRIBER_BUFFER), Publish(0, 0)), Advance(0))
  }

  lemma FoundFull()
    ensures var b := Found();
            var e := Event(SUBSCRIBER_BUFFER, 0);
            && b.channels == Waiting(SUBSCRIBER_BUFFER).channels
            && b.inside == map[0 := Publisher(e, 0, Displace)] && !b.closed
  {}

  const BEFORE_FOUND := Filling(SUBSCRIBER_BUFFER)

  lemma RunsTo(before: seq<Action>, b: Bus, a: Action)
    requires Run(before) == b
    ensures Run(before + [a]) == Next(b, a)
  {
    assert (before + [a])[..|before|] == before;
  }

  /** The consumer empties the buffer between the operations of a slow delivery: one drop counted, nothing lost. */
  lemma OneDropNoLoss() returns (actions: seq<Action>)
    ensures var b := Run(actions);
            && |b.channels| == 1 == |b.since| && b.inside == map[]
            && b.channels[0].dropped == 1 && Lost(b, 0) == {}
  {
    Filled(SUBSCRIBER_BUFFER);
    FoundFull();
    RunsTo(BEFORE_FOUND, Waiting(SUBSCRIBER_BUFFER), Publish(0, 0));
    RunsTo(BEFORE_FOUND + [Publish(0, 0)], Next(Waiting(SUBSCRIBER_BUFFER), Publish(0, 0)), Advance(0));
    var before := BEFORE_FOUND + [Publish(0, 0)] + [Advance(0)];
    Drained(Found(), SUBSCRIBER_BUFFER);
    var rest := [Advance(0), Advance(0), Advance(0)];
    RunOn(NEW_BUS, before, Receives(SUBSCRIBER_BUFFER));
    RunOn(NEW_BUS, before + Receives(SUBSCRIBER_BUFFER), rest);
    actions := before + Receives(SUBSCRIBER_BUFFER) + rest;
    var b := RunFrom(Found(), Receives(SUBSCRIBER_BUFFER));
    Steps(b, Advance(0), Advance(0), Advance(0));
    EmptyThenSent(b);
    EveryRunKeepsInv(actions);
    LossIsCounted(Run(actions), 0);
  }

  lemma EmptyThenSent(b: Bus)
    requires |b.channels| == 1 && b.inside == map[0 := Publisher(Event(SUBSCRIBER_BUFFER, 0), 0, Displace)]
    requires var c := b.channels[0];
             c.buffer == [] && c.dropped == 0 && c.refused == [] && CountDisplaced(c.gone) == 0
    ensures var n := Next(Next(Next(b, Advance(0)), Advance(0)), Advance(0));
            && |n.channels| == 1 && n.inside == map[]
            && n.channels[0].dropped == 1 && n.channels[0].refused == [] && CountDisplaced(n.channels[0].gone) == 0
  {
    var b1 := Next(b, Advance(0));
    assert b1.inside[0] == Publisher(Event(SUBSCRIBER_BUFFER, 0), 0, SecondSend(false));
    var b2 := Next(b1, Advance(0));
    assert b2.inside[0].at == 1;
    assert Next(b2, Advance(0)).inside == map[];
  }

  /** Another publisher takes the room a slow delivery made: one drop counted, two events lost. */
  lemma OneDropTwoLosses() returns (actions: seq<Action>)
    ensures var b := Run(actions);
            && |b.channels| == 1 == |b.since| && b.inside == map[]
            && b.channels[0].dropped == 1 && |Lost(b, 0)| == 2
  {
    Filled(SUBSCRIBER_BUFFER);
    FoundFull();
    RunsTo(BEFORE_FOUND, Waiting(SUBSCRIBER_BUFFER), Publish(0, 0));
    RunsTo(BEFORE_FOUND + [Publish(0, 0)], Next(Waiting(SUBSCRIBER_BUFFER), Publish(0, 0)), Advance(0));
    var before := BEFORE_FOUND + [Publish(0, 0)] + [Advance(0)];
    var refill := [Advance(0), Publish(1, 0), Advance(1)];
    var rest := [Advance(1), Advance(0), Advance(0)];
    RunOn(NEW_BUS, before, refill);
    RunOn(NEW_BUS, before + refill, rest);
    actions := before + refill + rest;
    Steps(Found(), Advance(0), Publish(1, 0), Advance(1));
    Refilled(Found());
    var b := RunFrom(Found(), refill);
    Steps(b, Advance(1), Advance(0), Advance(0));
    ThenRefused(b);
    EveryRunKeepsInv(actions);
    LossIsCounted(Run(actions), 0);
  }

  lemma Refilled(b: Bus)
    requires |b.channels| == 1 && b.inside == map[0 := Publisher(Event(SUBSCRIBER_BUFFER, 0), 0, Displace)] && !b.closed
    requires var c := b.channels[0];
             |c.buffer| == SUBSCRIBER_BUFFER && c.dropped == 0 && c.refused == [] && c.gone == [] && c.kinds == None
    ensures var n := Next(Next(Next(b, Advance(0)), Publish(1, 0)), Advance(1));
            && |n.channels| == 1 && n.inside.Keys == {0, 1}
            && n.inside[0].at == 0 && n.inside[0].stage == SecondSend(true) && n.inside[1].at == 1
            && |n.channels[0].buffer| == SUBSCRIBER_BUFFER && n.channels[0].dropped == 0
            && n.channels[0].refused == [] && CountDisplaced(n.channels[0].gone) == 1
  {
    var b1 := Next(b, Advance(0));
    OneMoreGone([], Gone(b.channels[0].buffer[0], Displaced), Displaced);
    assert b1.channels[0].gone == [] + [Gone(b.channels[0].buffer[0], Displaced)];
    assert b1.inside == map[0 := Publisher(Event(SUBSCRIBER_BUFFER, 0), 0, SecondSend(true))];
    var b2 := Next(b1, Publish(1, 0));
    assert b2.inside[1].at == 0 && b2.inside[1].stage == FirstSend;
  }

  lemma ThenRefused(b: Bus)
    requires |b.channels| == 1 && b.inside.Keys == {0, 1}
    requires b.inside[0].at == 0 && b.inside[0].stage == SecondSend(true) && b.inside[1].at == 1
    requires var c := b.channels[0];
             |c.buffer| == SUBSCRIBER_BUFFER && c.dropped == 0 && c.refused == [] && CountDisplaced(c.gone) == 1
    ensures var n := Next(Next(Next(b, Advance(1)), Advance(0)), Advance(0));
            && |n.channels| == 1 && n.inside == map[]
            && n.channels[0].dropped == 1 && |n.channels[0].refused| == 1 && CountDisplaced(n.channels[0].gone) == 1
  {
    var b1 := Next(b, Advance(1));
    assert b1.inside.Keys == {0};
    var b2 := Next(b1, Advance(0));
    assert b2.inside.Keys == {0} && b2.inside[0].at == 1;
    assert Next(b2, Advance(0)).inside.Keys == {};
  }
}
