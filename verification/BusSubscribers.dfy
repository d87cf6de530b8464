/** The bus from one subscriber's side, from the moment it subscribed and for the kinds it asked for. */
module BusSubscribers {
  import opened Options
  import opened EventBus
  import opened BusLosses

  /** Nothing moves a channel from its place or changes what it asked for or since when. */
  lemma StepKeepsSubscription(b: Bus, a: Action, i: nat)
    requires Inv(b) && i < |b.channels|
    ensures var n := Next(b, a);
            i < |n.channels| && |n.since| == |n.channels|
            && n.channels[i].kinds == b.channels[i].kinds && n.since[i] == b.since[i]
  {
    match a
    case Advance(p) =>
      if p in b.inside && b.inside[p].at == i {
        assert ChannelInv(b, i);
        DeliverKeeps(b.channels[i], b.inside[p]);
      }
    case _ =>
  }

  lemma {:induction false} RunKeepsSubscription(b: Bus, actions: seq<Action>, i: nat)
    requires Inv(b) && i < |b.channels|
    ensures var n := RunFrom(b, actions);
            Inv(n) && i < |n.channels| && n.channels[i].kinds == b.channels[i].kinds && n.since[i] == b.since[i]
    decreases |actions|
  {
    if actions != [] {
      var n := |actions| - 1;
      RunKeepsSubscription(b, actions[..n], i);
      NextKeepsInv(RunFrom(b, actions[..n]), actions[n]);
      StepKeepsSubscription(RunFrom(b, actions[..n]), actions[n], i);
    }
  }

  /** Published after the first `from`, and of a kind that was asked for: any kind, when none was named. */
  predicate AskedFor(log: seq<Event>, from: nat, kinds: Option<set<Kind>>, e: Event) {
    from <= e.serial < |log| && log[e.serial] == e && (kinds.None? || e.kind in kinds.value)
  }

  /**
    Whoever subscribes, in any run, for some kinds or for all: from then on the events of
    those kinds, and no others, are sent to it, refused, or on their way; what it has
    received or has waiting is of those kinds and published since.
   */
  lemma SubscriberIsServed(before: seq<Action>, kinds: Option<set<Kind>>, rest: seq<Action>)
    requires Run(before).inside == map[]
    ensures var from, i := |Run(before).log|, |Run(before).channels|;
            var b := Run(before + [Subscribe(kinds)] + rest);
            && i < |b.channels|
            && (forall e :: AskedFor(b.log, from, kinds, e) <==>
                  || e in b.channels[i].sent + b.channels[i].refused
                  || (Owed(b, i, e) && (kinds.None? || e.kind in kinds.value)))
            && (forall e :: e in Left(b.channels[i].gone, Consumed) || e in b.channels[i].buffer ==>
                  AskedFor(b.log, from, kinds, e))
  {
    var i := |Run(before).channels|;
    var start := Run(before + [Subscribe(kinds)]);
    EveryRunKeepsInv(before);
    RunOn(NEW_BUS, before, [Subscribe(kinds)]);
    assert [Subscribe(kinds)][..0] == [];
    assert start == Next(Run(before), Subscribe(kinds));
    EveryRunKeepsInv(before + [Subscribe(kinds)]);
    RunOn(NEW_BUS, before + [Subscribe(kinds)], rest);
    RunKeepsSubscription(start, rest, i);
    Served(before + [Subscribe(kinds)] + rest, i);
  }

  /** The same of any channel of any run, with what it asked for read off the channel. */
  lemma Served(actions: seq<Action>, i: nat)
    requires i < |Run(actions).channels|
    ensures var b := Run(actions);
            var c := b.channels[i];
            && |b.since| == |b.channels|
            && (forall e :: AskedFor(b.log, b.since[i], c.kinds, e) <==>
                  || e in c.sent + c.refused
                  || (Owed(b, i, e) && (c.kinds.None? || e.kind in c.kinds.value)))
            && (forall e :: e in Left(c.gone, Consumed) || e in c.buffer ==> AskedFor(b.log, b.since[i], c.kinds, e))
  {
    NothingGoesMissing(actions, i);
    EveryRunKeepsInv(actions);
    var b := Run(actions);
    var c := b.channels[i];
    assert ChannelInv(b, i);
    forall e ensures AskedFor(b.log, b.since[i], c.kinds, e) <==> e in Wanted(b, i) {}
    forall e | e in Left(c.gone, Consumed) || e in c.buffer ensures e in c.sent + c.refused {
      ReceivedWasSent(c, e);
    }
  }

  lemma ReceivedWasSent(c: Channel, e: Event)
    requires c.sent == Events(c.gone) + c.buffer && (e in Left(c.gone, Consumed) || e in c.buffer)
    ensures e in c.sent
  {
    LeftHas(c.gone, Consumed, e);
    SentIsSomewhere(c, e);
  }

  /** A channel opened on a closed bus is closed and never gets anything; on an open one it stays open until Close. */
  lemma OpenUntilClosed(actions: seq<Action>, i: nat)
    requires i < |Run(actions).channels|
    ensures Run(actions).channels[i].open <==> forall k :: 0 <= k < |actions| && actions[k] == Close ==>
                                                 Run(actions[..k]).inside != map[]
  {
    EveryRunKeepsInv(actions);
    assert ChannelInv(Run(actions), i);
    ClosedIff(actions);
  }

  lemma {:induction false} ClosedIff(actions: seq<Action>)
    ensures !Run(actions).closed <==> forall k :: 0 <= k < |actions| && actions[k] == Close ==>
                                        Run(actions[..k]).inside != map[]
    decreases |actions|
  {
    if actions != [] {
      var n := |actions| - 1;
      ClosedIff(actions[..n]);
      EveryRunKeepsInv(actions[..n]);
      assert forall k :: 0 <= k < n ==> actions[..n][..k] == actions[..k];
    }
  }
}
