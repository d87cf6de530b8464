/**
  The bus with one publisher and nobody receiving: every channel holds the most recent of
  the events meant for it, and its drop count is its loss.
 */
module LonePublisher {
  import opened Options
  import opened EventBus
  import opened BusLosses

  function Newest(s: seq<Event>): seq<Event> {
    if |s| <= SUBSCRIBER_BUFFER then s else s[|s| - SUBSCRIBER_BUFFER..]
  }

  lemma NewestOfMore(s: seq<Event>, e: Event)
    requires |s| >= SUBSCRIBER_BUFFER
    ensures Newest(s + [e]) == Newest(s)[1..] + [e]
  {}

  /** A channel that has been brought exactly the events in w. */
  ghost predicate Settled(c: Channel, w: seq<Event>) {
    && c.buffer == Newest(w)
    && c.refused == []
    && CountDisplaced(c.gone) == c.dropped == |w| - |c.buffer|
  }

  /** The same channel with its oldest event already displaced for the next. */
  ghost predicate MadeRoom(c: Channel, w: seq<Event>) {
    && |w| >= SUBSCRIBER_BUFFER && c.buffer == Newest(w)[1..]
    && c.refused == []
    && c.dropped == |w| - SUBSCRIBER_BUFFER && CountDisplaced(c.gone) == c.dropped + 1
  }

  ghost predicate AtStage(c: Channel, stage: Stage, w: seq<Event>) {
    match stage
    case FirstSend => Settled(c, w)
    case Displace => Settled(c, w) && c.Full()
    case SecondSend(_) => MadeRoom(c, w)
  }

  lemma LoneFirstSend(c: Channel, q: Publisher, w: seq<Event>)
    requires q.stage == FirstSend && Settled(c, w)
    ensures var (d, q') := Deliver(c, q);
            if q'.at == q.at then d == c && q'.stage == Displace && c.Full() && c.Wants(q.event.kind)
            else q'.at == q.at + 1 && q'.stage == FirstSend
                 && Settled(d, w + if c.Wants(q.event.kind) then [q.event] else [])
  {
    assert w + [] == w;
    assert !c.Full() ==> c.buffer == w && Newest(w + [q.event]) == w + [q.event];
  }

  lemma LoneDisplace(c: Channel, q: Publisher, w: seq<Event>)
    requires q.stage == Displace && Settled(c, w) && c.Full()
    ensures var (d, q') := Deliver(c, q); q' == q.(stage := SecondSend(true)) && MadeRoom(d, w) && d.kinds == c.kinds
  {
    OneMoreGone(c.gone, Gone(c.buffer[0], Displaced), Displaced);
  }

  lemma LoneSecondSend(c: Channel, q: Publisher, w: seq<Event>)
    requires q.stage.SecondSend? && MadeRoom(c, w)
    ensures var (d, q') := Deliver(c, q); q'.at == q.at + 1 && q'.stage == FirstSend && Settled(d, w + [q.event])
  {
    NewestOfMore(w, q.event);
  }

  /** One operation of a delivery that nobody else touches. */
  lemma LoneOperation(c: Channel, q: Publisher, w: seq<Event>)
    requires AtStage(c, q.stage, w) && (q.stage != FirstSend ==> c.Wants(q.event.kind))
    ensures var (d, q') := Deliver(c, q);
            && d.kinds == c.kinds && q'.event == q.event
            && (if q'.at == q.at then AtStage(d, q'.stage, w) && c.Wants(q.event.kind)
                else q'.at == q.at + 1 && q'.stage == FirstSend
                     && Settled(d, w + if c.Wants(q.event.kind) then [q.event] else []))
  {
    match q.stage
    case FirstSend => LoneFirstSend(c, q, w);
    case Displace => LoneDisplace(c, q, w);
    case SecondSend(_) => LoneSecondSend(c, q, w);
  }

  /** Nobody receives, and nobody but p publishes. */
  predicate Lone(a: Action, p: nat) {
    !a.Receive? && (a.Publish? ==> a.p == p)
  }

  /** How much of the log channel i has been brought. */
  function Brought(b: Bus, p: nat, i: nat): nat {
    if p in b.inside && b.inside[p].at <= i && b.log != [] then |b.log| - 1 else |b.log|
  }

  function BroughtTo(b: Bus, p: nat, i: nat): seq<Event>
    requires i < |b.channels| && i < |b.since|
  {
    WantedOf(b.log[..Brought(b, p, i)], b.since[i], b.channels[i].kinds)
  }

  function StageAt(b: Bus, p: nat, i: nat): Stage {
    if p in b.inside && b.inside[p].at == i then b.inside[p].stage else FirstSend
  }

  ghost predicate LoneChannel(b: Bus, p: nat, i: nat)
    requires i < |b.channels| && i < |b.since|
  {
    && b.since[i] <= Brought(b, p, i)
    && AtStage(b.channels[i], StageAt(b, p, i), BroughtTo(b, p, i))
    && (StageAt(b, p, i) != FirstSend ==> b.channels[i].Wants(b.inside[p].event.kind))
  }

  ghost predicate LoneInv(b: Bus, p: nat) {
    && |b.since| == |b.channels|
    && (forall r :: r in b.inside ==> r == p)
    && (p in b.inside ==> b.log != [] && b.inside[p].event == b.log[|b.log| - 1])
    && (forall i: nat :: i < |b.channels| ==> LoneChannel(b, p, i))
  }

  lemma OneMoreWanted(log: seq<Event>, e: Event, from: nat, kinds: Option<set<Kind>>)
    requires from <= |log|
    ensures WantedOf(log + [e], from, kinds) == WantedOf(log, from, kinds) + if Asked(kinds, e.kind) then [e] else []
  {
    assert (log + [e])[..|log|] == log;
  }

  lemma LoneAdvanceHere(b: Bus, p: nat)
    requires LoneInv(b, p) && p in b.inside && b.inside[p].at < |b.channels|
    ensures LoneChannel(Next(b, Advance(p)), p, b.inside[p].at)
  {
    var n, q := Next(b, Advance(p)), b.inside[p];
    var i, k := q.at, |b.log| - 1;
    assert LoneChannel(b, p, i);
    var w := BroughtTo(b, p, i);
    LoneOperation(b.channels[i], q, w);
    var (d, q') := Deliver(b.channels[i], q);
    assert n.channels[i] == d && n.inside[p] == q';
    if q'.at == i {
      assert BroughtTo(n, p, i) == w;
    } else {
      assert b.log[..k] + [b.log[k]] == b.log == b.log[..k + 1];
      OneMoreWanted(b.log[..k], b.log[k], b.since[i], b.channels[i].kinds);
      assert BroughtTo(n, p, i) == w + if d.Wants(q.event.kind) then [q.event] else [];
    }
  }

  lemma LoneAdvanceElsewhere(b: Bus, p: nat, i: nat)
    requires LoneInv(b, p) && p in b.inside && b.inside[p].at < |b.channels|
    requires i < |b.channels| && i != b.inside[p].at
    ensures LoneChannel(Next(b, Advance(p)), p, i)
  {
    var n, q := Next(b, Advance(p)), b.inside[p];
    assert LoneChannel(b, p, i);
    assert LoneChannel(b, p, q.at);
    LoneOperation(b.channels[q.at], q, BroughtTo(b, p, q.at));
    assert n.channels[i] == b.channels[i];
    assert Brought(n, p, i) == Brought(b, p, i) && StageAt(n, p, i) == StageAt(b, p, i) == FirstSend;
  }

  lemma LoneAdvance(b: Bus, p: nat)
    requires LoneInv(b, p) && p in b.inside && b.inside[p].at < |b.channels|
    ensures LoneInv(Next(b, Advance(p)), p)
  {
    var n := Next(b, Advance(p));
    forall i: nat | i < |n.channels| ensures LoneChannel(n, p, i) {
      if i == b.inside[p].at {
        LoneAdvanceHere(b, p);
      } else {
        LoneAdvanceElsewhere(b, p, i);
      }
    }
    assert LoneChannel(b, p, b.inside[p].at);
    LoneOperation(b.channels[b.inside[p].at], b.inside[p], BroughtTo(b, p, b.inside[p].at));
  }

  lemma LonePublish(b: Bus, p: nat, kind: Kind)
    requires LoneInv(b, p)
    ensures LoneInv(Next(b, Publish(p, kind)), p)
  {
    var n := Next(b, Publish(p, kind));
    if !b.closed && p !in b.inside {
      forall i: nat | i < |n.channels| ensures LoneChannel(n, p, i) {
        assert LoneChannel(b, p, i);
        assert n.log[..|b.log|] == b.log == b.log[..|b.log|];
      }
    }
  }

  lemma LoneLeave(b: Bus, p: nat)
    requires LoneInv(b, p) && p in b.inside && b.inside[p].at >= |b.channels|
    ensures LoneInv(Next(b, Advance(p)), p)
  {
    var n := Next(b, Advance(p));
    forall i: nat | i < |n.channels| ensures LoneChannel(n, p, i) {
      assert LoneChannel(b, p, i);
    }
  }

  lemma LoneSubscribe(b: Bus, p: nat, kinds: Option<set<Kind>>)
    requires LoneInv(b, p)
    ensures LoneInv(Next(b, Subscribe(kinds)), p)
  {
    var n := Next(b, Subscribe(kinds));
    if b.inside == map[] {
      forall i: nat | i < |n.channels| ensures LoneChannel(n, p, i) {
        if i < |b.channels| {
          assert LoneChannel(b, p, i);
        }
      }
    }
  }

  lemma LoneClose(b: Bus, p: nat)
    requires LoneInv(b, p)
    ensures LoneInv(Next(b, Close), p)
  {
    var n := Next(b, Close);
    if b.inside == map[] && !b.closed {
      forall i: nat | i < |n.channels| ensures LoneChannel(n, p, i) {
        assert LoneChannel(b, p, i);
      }
    }
  }

  lemma LoneStep(b: Bus, a: Action, p: nat)
    requires LoneInv(b, p) && Lone(a, p)
    ensures LoneInv(Next(b, a), p)
  {
    match a
    case Publish(_, kind) => LonePublish(b, p, kind);
    case Advance(r) =>
      if r in b.inside {
        if b.inside[p].at >= |b.channels| {
          LoneLeave(b, p);
        } else {
          LoneAdvance(b, p);
        }
      }
    case Receive(_) =>
    case Subscribe(kinds) => LoneSubscribe(b, p, kinds);
    case Close => LoneClose(b, p);
  }

  lemma {:induction false} LoneRun(actions: seq<Action>, p: nat)
    requires forall k :: 0 <= k < |actions| ==> Lone(actions[k], p)
    ensures LoneInv(Run(actions), p)
    decreases |actions|
  {
    if actions != [] {
      LoneRun(actions[..|actions| - 1], p);
      LoneStep(Run(actions[..|actions| - 1]), actions[|actions| - 1], p);
    }
  }

  /**
    In every run in which one publisher publishes and nobody receives, whoever subscribes
    and when: once the publisher is out, each channel's buffer holds the most recent of the
    wanted events published since it subscribed, and the drop count is the loss.
   */
  lemma NewestAreKept(actions: seq<Action>, p: nat, i: nat)
    requires forall k :: 0 <= k < |actions| ==> Lone(actions[k], p)
    requires Run(actions).inside == map[] && i < |Run(actions).channels|
    ensures var b := Run(actions);
            var c := b.channels[i];
            && |b.since| == |b.channels|
            && c.buffer == (var w := Wanted(b, i); if |w| <= 256 then w else w[|w| - 256..])
            && c.dropped == |Wanted(b, i)| - |c.buffer| == |Lost(b, i)|
  {
    var b := Run(actions);
    LoneRun(actions, p);
    assert LoneChannel(b, p, i);
    assert b.log[..|b.log|] == b.log;
    EveryRunKeepsInv(actions);
    LossIsCounted(b, i);
  }
}
