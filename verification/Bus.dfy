/** The bus object: every method is one critical section or channel operation of internal/events/bus.go. */
module Events {
  import opened Common
  import opened BusProtocol

  class Bus {
    const limits: Limits
    var nextID: nat
    var replay: seq<Queued>
    var replayBytes: int
    var subscribers: set<nat>
    var targets: map<nat, Subscriber>
    ghost var published: seq<Queued>

    ghost function View(): State
      reads this
    {
      State(limits, published, subscribers, targets)
    }

    /** The log and its byte count are what the publishing history says they are. */
    ghost predicate Logged()
      reads this
    {
      && nextID == |published|
      && replay == LongestFit(published, limits)
      && replayBytes == Bytes(replay)
    }

    ghost predicate Valid()
      reads this
    {
      Inv(View()) && Logged()
    }

    constructor (requested: Limits)
      ensures Valid()
      ensures View() == Fresh(Normalized(requested))
    {
      limits := Normalized(requested);
      nextID, replay, replayBytes := 0, [], 0;
      subscribers, targets := {}, map[];
      published := [];
    }

    /** Drops the oldest events until both limits hold. */
    method TrimReplay(ghost before: seq<Queued>, ghost queued: Queued)
      requires Normal(limits) && published == before + [queued]
      requires replay == LongestFit(before, limits) + [queued]
      requires replayBytes == Bytes(replay)
      modifies this`replay, this`replayBytes
      ensures replay == LongestFit(published, limits)
      ensures replayBytes == Bytes(replay)
    {
      ghost var k := FitStart(before, limits);
      assert replay == published[k..];
      LongestFitIsLongest(before, limits);
      forall j | 0 <= j < k ensures !Fits(published[j..], limits) {
        assert published[j..] == before[j..] + [queued];
        BytesJoin(before[j..], [queued]);
      }
      while |replay| > 0 && (|replay| > limits.replayCount || replayBytes > limits.replayBytes)
        invariant k <= |published|
        invariant replay == published[k..]
        invariant replayBytes == Bytes(replay)
        invariant forall j :: 0 <= j < k ==> !Fits(published[j..], limits)
        decreases |replay|
      {
        replayBytes := replayBytes - replay[0].size;
        replay := replay[1..];
        k := k + 1;
        assert replay == published[k..];
      }
      LongestFitUnique(published, limits, k);
    }

    /** Offers a published event to every subscriber, in no particular order. */
    method Deliver(queued: Queued, ghost s: State)
      requires s.registered <= s.targets.Keys && Enabled(s, Step.Publish(queued))
      requires forall t :: t in s.registered ==> HasRoom(limits, s.targets[t], queued.size)
      requires limits == s.limits && subscribers == s.registered && targets == s.targets
      modifies this`subscribers, this`targets
      ensures subscribers == Next(s, Step.Publish(queued)).registered
      ensures targets == Next(s, Step.Publish(queued)).targets
    {
      var todo := subscribers;
      while todo != {}
        invariant todo <= s.registered
        invariant targets.Keys == s.targets.Keys
        invariant forall t :: t in s.targets ==> t in todo || Offered(s, queued, t)
        invariant forall t :: t in todo ==> t in subscribers && targets[t] == s.targets[t]
        invariant subscribers <= s.registered
        decreases |todo|
      {
        var t :| t in todo;
        Offer(t, queued, s);
        assert Offered(s, queued, t);
        todo := todo - {t};
      }
      forall t | t in s.registered ensures t in subscribers <==> Accepts(limits, s.targets[t], queued.size) {
        assert Offered(s, queued, t);
      }
      forall t | t in s.targets ensures targets[t] == Next(s, Step.Publish(queued)).targets[t] {
        assert Offered(s, queued, t);
      }
    }

    /** A target has been dealt with: queued, cut off, or not registered in the first place. */
    ghost predicate Offered(s: State, queued: Queued, t: nat)
      reads this`subscribers, this`targets
    {
      t in s.targets && t in targets &&
      if t in s.registered && Accepts(limits, s.targets[t], queued.size)
      then t in subscribers && targets[t] == Enqueued(s.targets[t], queued)
      else t !in subscribers && targets[t] == s.targets[t]
    }

    /** One round of the publishing loop. */
    method Offer(t: nat, queued: Queued, ghost s: State)
      requires limits == s.limits && t in s.targets && HasRoom(limits, s.targets[t], queued.size)
      requires t in targets && targets[t] == s.targets[t]
      modifies this`subscribers, this`targets
      ensures if Accepts(limits, s.targets[t], queued.size)
              then subscribers == old(subscribers) && targets == old(targets)[t := Enqueued(s.targets[t], queued)]
              else subscribers == old(subscribers) - {t} && targets == old(targets)
    {
      var target := targets[t];
      if queued.size > limits.subscriberBytes || target.pendingCount >= limits.subscriberCount
         || target.pendingBytes + queued.size > limits.subscriberBytes {
        subscribers := subscribers - {t};
        return;
      }
      target := target.(pendingCount := target.pendingCount + 1, pendingBytes := target.pendingBytes + queued.size);
      if |target.queue| < limits.subscriberCount {
        target := target.(queue := target.queue + [queued]);
        targets := targets[t := target];
      } else {
        // The default branch of the non-blocking send.
        assert false;
      }
    }

    method Publish(kind: Kind, exchange: Option<ID>, revision: nat, size: nat) returns (envelope: Envelope)
      requires Valid() && size >= 1
      modifies this
      ensures Valid()
      ensures envelope == Envelope(|old(published)| + 1, kind, exchange, revision)
      ensures Enabled(old(View()), Step.Publish(Queued(envelope, size)))
      ensures View() == Next(old(View()), Step.Publish(Queued(envelope, size)))
      ensures OfferedToAll(old(View()), Queued(envelope, size), View())
    {
      ghost var s := View();
      nextID := nextID + 1;
      envelope := Envelope(nextID, kind, exchange, revision);
      var queued := Queued(envelope, size);
      BytesJoin(replay, [queued]);
      BytesOne(queued);
      replay := replay + [queued];
      replayBytes := replayBytes + size;
      published := published + [queued];
      TrimReplay(s.published, queued);
      RoomInQueues(s, size);
      Deliver(queued, s);
      NextKeepsInv(s, Step.Publish(queued));
      PublishOffersExactly(s, queued);
    }

    method ReplayAfter(after: Option<nat>) returns (reply: Replay)
      requires Valid()
      ensures reply == BusProtocol.ReplayAfter(published, limits, after)
    {
      if after.None? {
        return Replay.Events(replay);
      }
      ghost var k := FitStart(published, limits);
      assert k < after.value <= |published| ==> replay[after.value - 1 - k].envelope.id == after.value;
      for i := 0 to |replay|
        invariant forall j :: 0 <= j < i ==> replay[j].envelope.id != after.value
      {
        assert replay[i] == published[k + i];
        if replay[i].envelope.id == after.value {
          assert replay[i + 1..] == published[after.value..];
          return Replay.Events(replay[i + 1..]);
        }
      }
      return Reset;
    }

    /** Computes the replay and registers the subscriber under one lock. */
    method Subscribe(after: Option<nat>, target: nat) returns (reply: Replay)
      requires Valid() && target !in targets
      modifies this`subscribers, this`targets
      ensures Valid()
      ensures reply == BusProtocol.ReplayAfter(published, limits, after)
      ensures View() == Next(old(View()), Step.Subscribe(target))
      ensures subscribers == old(subscribers) + {target}
      ensures targets == old(targets)[target := Subscriber([], Waiting, 0, 0, [], |published|)]
    {
      ghost var s := View();
      reply := ReplayAfter(after);
      targets := targets[target := Subscriber([], Waiting, 0, 0, [], nextID)];
      subscribers := subscribers + {target};
      NextKeepsInv(s, Step.Subscribe(target));
    }

    /**
      Takes the snapshot and subscribes under the same lock. The cursor names
      the last event of the log; there is never anything to replay after it.
     */
    method SubscribeWithSnapshot(target: nat) returns (cursor: Option<nat>, reply: Replay)
      requires Valid() && target !in targets
      modifies this`subscribers, this`targets
      ensures Valid()
      ensures cursor == if LongestFit(published, limits) == [] then None else Some(|published|)
      ensures reply == Replay.Events([])
      ensures View() == Next(old(View()), Step.Subscribe(target))
      ensures subscribers == old(subscribers) + {target}
      ensures targets == old(targets)[target := Subscriber([], Waiting, 0, 0, [], |published|)]
    {
      cursor := None;
      if |replay| > 0 {
        cursor := Some(replay[|replay| - 1].envelope.id);
        assert replay[|replay| - 1] == published[|published| - 1];
      }
      reply := Subscribe(cursor, target);
    }

    method Close(target: nat)
      requires Valid() && target in targets
      modifies this`subscribers
      ensures Valid() && View() == Next(old(View()), Step.Close(target))
      ensures subscribers == old(subscribers) - {target}
    {
      NextKeepsInv(View(), Step.Close(target));
      subscribers := subscribers - {target};
    }

    /** The forwarder receives from the subscriber's queue. */
    method TakeQueued(target: nat)
      requires Valid() && target in targets && targets[target].forwarder.Waiting? && targets[target].queue != []
      modifies this`targets
      ensures Valid() && View() == Next(old(View()), Step.TakeQueued(target))
      ensures old(targets)[target].queue == [targets[target].forwarder.item] + targets[target].queue
    {
      NextKeepsInv(View(), Step.TakeQueued(target));
      var it := targets[target];
      targets := targets[target := it.(queue := it.queue[1..], forwarder := Holding(it.queue[0]))];
    }

    /** The stream handler receives the event the forwarder holds. */
    method HandOver(target: nat) returns (envelope: Envelope)
      requires Valid() && target in targets && targets[target].forwarder.Holding?
      modifies this`targets
      ensures Valid() && View() == Next(old(View()), Step.HandOver(target))
      ensures envelope == old(targets)[target].forwarder.item.envelope
      ensures targets[target].sent == old(targets)[target].sent + [old(targets)[target].forwarder.item]
    {
      NextKeepsInv(View(), Step.HandOver(target));
      var it := targets[target];
      envelope := it.forwarder.item.envelope;
      targets := targets[target := it.(forwarder := Handed(it.forwarder.item), sent := it.sent + [it.forwarder.item])];
    }

    /** After a hand-over the forwarder takes the lock again to lower the counters. */
    method Account(target: nat)
      requires Valid() && target in targets && targets[target].forwarder.Handed?
      modifies this`targets
      ensures Valid() && View() == Next(old(View()), Step.Account(target))
      ensures targets[target].pendingCount == old(targets)[target].pendingCount - 1
      ensures targets[target].pendingBytes
           == old(targets)[target].pendingBytes - old(targets)[target].forwarder.item.size
    {
      NextKeepsInv(View(), Step.Account(target));
      var it := targets[target];
      targets := targets[target := it.(pendingCount := it.pendingCount - 1,
                                       pendingBytes := it.pendingBytes - it.forwarder.item.size, forwarder := Waiting)];
    }

    method Exit(target: nat)
      requires Valid() && target in targets && target !in subscribers
      requires targets[target].forwarder.Waiting? || targets[target].forwarder.Holding?
      modifies this`targets
      ensures Valid() && View() == Next(old(View()), Step.Exit(target))
    {
      NextKeepsInv(View(), Step.Exit(target));
      targets := targets[target := targets[target].(forwarder := Stopped)];
    }
  }
}
