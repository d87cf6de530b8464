/**
  The bus as one caller at a time sees it, with its subscriptions updated in place. What a
  Publish does here is what EventBus.AloneDeliversToAll shows the interleaved steps do when
  nothing comes between them.
 */
module LiveBus {
  import opened Options
  import opened EventBus

  class Subscription {
    const name: string
    const kinds: Option<set<Kind>>
    var open: bool
    var buffer: seq<Event>
    var dropped: nat
    ghost var sent: seq<Event>
    ghost var gone: seq<Gone>
    ghost var refused: seq<Event>

    ghost function Value(): Channel
      reads this
    {
      Channel(kinds, open, buffer, dropped, sent, gone, refused)
    }

    constructor (name: string, kinds: Option<set<Kind>>, open: bool)
      ensures this.name == name && Value() == NewChannel(kinds, open)
    {
      this.name, this.kinds, this.open, buffer, dropped := name, kinds, open, [], 0;
      sent, gone, refused := [], [], [];
    }

    /** The send of a select with a default: nothing happens when the buffer is full. */
    method TrySend(e: Event) returns (ok: bool)
      modifies this
      ensures ok == !old(Value()).Full()
      ensures Value() == if ok then old(Value()).Send(e) else old(Value())
    {
      ok := |buffer| < SUBSCRIBER_BUFFER;
      if ok {
        buffer, sent := buffer + [e], sent + [e];
      }
    }

    /** The receive of a select with a default, made by a publisher that wants the room. */
    method TryDisplace()
      modifies this
      ensures Value() == old(Value()).TakeOldest(Displaced)
    {
      if buffer != [] {
        gone, buffer := gone + [Gone(buffer[0], Displaced)], buffer[1..];
      }
    }

    method Deliver(e: Event)
      requires |buffer| <= SUBSCRIBER_BUFFER && Value().Wants(e.kind)
      modifies this
      ensures Value() == Undisturbed(old(Value()), e) && |buffer| <= SUBSCRIBER_BUFFER
    {
      var sentAtOnce := TrySend(e);
      if !sentAtOnce {
        TryDisplace();
        var sentAfter := TrySend(e);
        dropped := dropped + 1;
        refused := if sentAfter then refused else refused + [e];
      }
    }
  }

  class Bus {
    var subs: seq<Subscription>
    var closed: bool

    ghost predicate Valid()
      reads this, subs
    {
      && (closed ==> subs == [])
      && (forall i, j :: 0 <= i < j < |subs| ==> subs[i] != subs[j])
      && (forall i :: 0 <= i < |subs| ==> subs[i].open && |subs[i].buffer| <= SUBSCRIBER_BUFFER)
    }

    constructor ()
      ensures Valid() && subs == [] && !closed
    {
      subs, closed := [], false;
    }

    /** A late subscriber is given a channel that is closed already, and the bus does not keep it. */
    method Subscribe(name: string, kinds: seq<Kind>) returns (s: Subscription)
      requires Valid()
      modifies this`subs
      ensures Valid() && fresh(s) && s.name == name
      ensures s.Value() == NewChannel(if kinds == [] then None else Some(set k | k in kinds), !closed)
      ensures subs == if closed then old(subs) else old(subs) + [s]
    {
      s := new Subscription(name, if kinds == [] then None else Some(set k | k in kinds), !closed);
      if !closed {
        subs := subs + [s];
      }
    }

    /** Every subscriber's channel is as if it alone had been delivered to; a closed bus is left alone. */
    method Publish(e: Event)
      requires Valid()
      modifies subs
      ensures Valid() && subs == old(subs)
      ensures forall i :: 0 <= i < |subs| ==> subs[i].Value() == Undisturbed(old(subs[i].Value()), e)
      ensures forall i :: 0 <= i < |subs| ==> DeliveredTo(old(subs[i].Value()), e, subs[i].Value())
    {
      if closed {
        return;
      }
      var i := 0;
      while i < |subs|
        invariant 0 <= i <= |subs| && Valid()
        invariant forall j :: 0 <= j < i ==> subs[j].Value() == Undisturbed(old(subs[j].Value()), e)
        invariant forall j :: i <= j < |subs| ==> subs[j].Value() == old(subs[j].Value())
      {
        var s := subs[i];
        if s.kinds.None? || e.kind in s.kinds.value {
          s.Deliver(e);
        }
        i := i + 1;
      }
      forall j | 0 <= j < |subs| ensures DeliveredTo(old(subs[j].Value()), e, subs[j].Value()) {
        UndisturbedMeans(old(subs[j].Value()), e);
      }
    }

    /** Every channel is closed with what it held still in it, once. */
    method Close()
      requires Valid()
      modifies this, subs
      ensures Valid() && closed && subs == []
      ensures forall s :: s in old(subs) ==> s.Value() == old(s.Value()).(open := false)
    {
      if closed {
        return;
      }
      closed := true;
      var i, all := 0, subs;
      while i < |all|
        invariant 0 <= i <= |all| && closed && all == old(subs)
        invariant forall j :: 0 <= j < i ==> all[j].Value() == old(all[j].Value()).(open := false)
        invariant forall j :: i <= j < |all| ==> all[j].Value() == old(all[j].Value())
      {
        all[i].open := false;
        i := i + 1;
      }
      subs := [];
    }

    /** The drop count of the first subscription with that name, or zero. */
    method Dropped(name: string) returns (total: nat)
      requires Valid()
      ensures total > 0 ==> exists i :: 0 <= i < |subs| && subs[i].name == name && subs[i].dropped == total
      ensures forall i :: 0 <= i < |subs| && subs[i].name == name && total != subs[i].dropped
                ==> exists j :: 0 <= j < i && subs[j].name == name
    {
      total := 0;
      var i := 0;
      while i < |subs|
        invariant 0 <= i <= |subs|
        invariant forall j :: 0 <= j < i ==> subs[j].name != name
      {
        if subs[i].name == name {
          return subs[i].dropped;
        }
        i := i + 1;
      }
    }
  }
}
