/**
  The event bus as a step system (internal/events/bus.go): what every
  interleaving of publishers, subscribers and forwarders keeps.
 */
module BusProtocol {
  import opened Common

  datatype Kind =
    | ExchangeStarted | RequestCompleted | ResponseCompleted | ExchangeFailed
    | ExchangeEvicted | ExchangeDeleted | HistoryCleared | ConfigChanged

  /** Event ids are the numbers the bus prints; `exchange` is None where the id is empty. */
  datatype Envelope = Envelope(id: nat, kind: Kind, exchange: Option<ID>, revision: nat)

  datatype Queued = Queued(envelope: Envelope, size: nat)

  datatype Limits = Limits(replayCount: int, replayBytes: int, subscriberCount: int, subscriberBytes: int)

  predicate Normal(limits: Limits) {
    limits.replayCount >= 1 && limits.replayBytes >= 1 && limits.subscriberCount >= 1 && limits.subscriberBytes >= 1
  }

  function Normalized(limits: Limits): (r: Limits)
    ensures Normal(r)
    ensures Normal(limits) ==> r == limits
    ensures r.replayCount == limits.replayCount || limits.replayCount < 1 == r.replayCount
    ensures r.replayBytes == limits.replayBytes || limits.replayBytes < 1 == r.replayBytes
    ensures r.subscriberCount == limits.subscriberCount || limits.subscriberCount < 1 == r.subscriberCount
    ensures r.subscriberBytes == limits.subscriberBytes || limits.subscriberBytes < 1 == r.subscriberBytes
  {
    Limits(AtLeastOne(limits.replayCount), AtLeastOne(limits.replayBytes),
           AtLeastOne(limits.subscriberCount), AtLeastOne(limits.subscriberBytes))
  }

  function AtLeastOne(n: int): int {
    if n < 1 then 1 else n
  }

  function Bytes(items: seq<Queued>): nat {
    if items == [] then 0 else items[0].size + Bytes(items[1..])
  }

  lemma {:induction false} BytesJoin(a: seq<Queued>, b: seq<Queued>)
    ensures Bytes(a + b) == Bytes(a) + Bytes(b)
  {
    if a == [] {
      assert a + b == b;
    } else {
      assert (a + b)[1..] == a[1..] + b;
      BytesJoin(a[1..], b);
    }
  }

  // ------------------------------------------------------------------
  // The replay log
  // ------------------------------------------------------------------

  predicate Fits(items: seq<Queued>, limits: Limits) {
    |items| <= limits.replayCount && Bytes(items) <= limits.replayBytes
  }

  /** Where the longest suffix that fits both limits starts. */
  function FitStart(all: seq<Queued>, limits: Limits): (k: nat)
    ensures k <= |all|
  {
    if all == [] || Fits(all, limits) then 0 else 1 + FitStart(all[1..], limits)
  }

  function LongestFit(all: seq<Queued>, limits: Limits): seq<Queued> {
    all[FitStart(all, limits)..]
  }

  lemma {:induction false} LongestFitIsLongest(all: seq<Queued>, limits: Limits)
    requires Normal(limits)
    ensures Fits(LongestFit(all, limits), limits)
    ensures forall k :: 0 <= k < FitStart(all, limits) ==> !Fits(all[k..], limits)
    ensures |LongestFit(all, limits)| <= limits.replayCount && Bytes(LongestFit(all, limits)) <= limits.replayBytes
    ensures forall k :: 0 <= k < FitStart(all, limits) ==>
              |all[k..]| > limits.replayCount || Bytes(all[k..]) > limits.replayBytes
  {
    if all != [] && !Fits(all, limits) {
      LongestFitIsLongest(all[1..], limits);
      assert forall k :: 1 <= k <= |all| ==> all[k..] == all[1..][k - 1..];
    } else {
      assert all[0..] == all;
    }
  }

  /** A suffix that fits and whose longer suffixes do not is the longest. */
  lemma {:induction false} LongestFitUnique(all: seq<Queued>, limits: Limits, k: nat)
    requires Normal(limits) && k <= |all|
    requires Fits(all[k..], limits)
    requires forall j :: 0 <= j < k ==> !Fits(all[j..], limits)
    ensures FitStart(all, limits) == k
  {
    if k == 0 {
      assert all[0..] == all;
    } else {
      assert all[0..] == all;
      forall j | 0 <= j < k - 1 ensures !Fits(all[1..][j..], limits) {
        assert all[1..][j..] == all[j + 1..];
      }
      assert all[1..][k - 1..] == all[k..];
      LongestFitUnique(all[1..], limits, k - 1);
    }
  }

  /** Publishing never brings an older event back into the log. */
  lemma FitStartGrows(all: seq<Queued>, q: Queued, limits: Limits)
    requires Normal(limits)
    ensures FitStart(all, limits) <= FitStart(all + [q], limits)
  {
    LongestFitIsLongest(all, limits);
    LongestFitIsLongest(all + [q], limits);
    var k := FitStart(all + [q], limits);
    if k < FitStart(all, limits) {
      assert (all + [q])[k..] == all[k..] + [q];
      BytesJoin(all[k..], [q]);
    }
  }

  /** Ids are positions: the i-th event published has id i + 1. */
  ghost predicate Numbered(all: seq<Queued>) {
    forall i :: 0 <= i < |all| ==> all[i].envelope.id == i + 1
  }

  /** What a subscriber that names an event is owed: the rest, or a reset. */
  datatype Replay = Events(items: seq<Queued>) | Reset

  function ReplayAfter(all: seq<Queued>, limits: Limits, after: Option<nat>): Replay {
    match after
    case None => Events(LongestFit(all, limits))
    case Some(id) =>
      if FitStart(all, limits) < id <= |all| then Events(all[id..]) else Reset
  }

  // ------------------------------------------------------------------
  // Subscribers
  // ------------------------------------------------------------------

  /**
    The forwarding goroutine: waiting for its queue, holding an event the
    reader has not taken, or past the hand-over but not yet accounted for.
   */
  datatype Forwarder = Waiting | Holding(item: Queued) | Handed(item: Queued) | Stopped

  /** `sent` and `start` are history: what the reader took, and how much had been published before. */
  datatype Subscriber = Subscriber(
    queue: seq<Queued>,
    forwarder: Forwarder,
    pendingCount: int,
    pendingBytes: int,
    sent: seq<Queued>,
    start: nat)

  datatype State = State(
    limits: Limits,
    published: seq<Queued>,
    registered: set<nat>,
    targets: map<nat, Subscriber>)

  predicate Accepts(limits: Limits, target: Subscriber, size: nat) {
    && size <= limits.subscriberBytes
    && target.pendingCount < limits.subscriberCount
    && target.pendingBytes + size <= limits.subscriberBytes
  }

  function Enqueued(target: Subscriber, q: Queued): Subscriber {
    target.(queue := target.queue + [q], pendingCount := target.pendingCount + 1,
            pendingBytes := target.pendingBytes + q.size)
  }

  datatype Step =
    | Publish(q: Queued)
    | Subscribe(target: nat)
    | Close(target: nat)
    | TakeQueued(target: nat)
    | HandOver(target: nat)
    | Account(target: nat)
    | Exit(target: nat)

  predicate Enabled(s: State, step: Step) {
    match step
    case Publish(q) => q.envelope.id == |s.published| + 1 && q.size >= 1
    case Subscribe(t) => t !in s.targets
    case Close(t) => t in s.targets
    case TakeQueued(t) => t in s.targets && s.targets[t].forwarder.Waiting? && s.targets[t].queue != []
    case HandOver(t) => t in s.targets && s.targets[t].forwarder.Holding?
    case Account(t) => t in s.targets && s.targets[t].forwarder.Handed?
    case Exit(t) =>
      t in s.targets && t !in s.registered && (s.targets[t].forwarder.Waiting? || s.targets[t].forwarder.Holding?)
  }

  /** Every registered subscriber either queues the event or is cut off. */
  function Published(s: State, q: Queued): State {
    s.(published := s.published + [q],
       registered := (set t | t in s.registered && (t in s.targets ==> Accepts(s.limits, s.targets[t], q.size))),
       targets := map t | t in s.targets ::
         if t in s.registered && Accepts(s.limits, s.targets[t], q.size)
         then Enqueued(s.targets[t], q) else s.targets[t])
  }

  /**
    What one event does to a target: a registered one gets it behind what it
    has queued, exactly when its size and the raised counters are within the
    limits, and is cut off otherwise, with its queue as it was. A target that
    was cut off earlier is left alone.
   */
  ghost predicate Gets(limits: Limits, q: Queued, was: Subscriber, registered: bool, now: Subscriber, stays: bool) {
    && (registered
        && q.size <= limits.subscriberBytes
        && was.pendingCount + 1 <= limits.subscriberCount
        && was.pendingBytes + q.size <= limits.subscriberBytes
        ==> && stays
            && now.queue == was.queue + [q]
            && now.pendingCount == was.pendingCount + 1
            && now.pendingBytes == was.pendingBytes + q.size
            && now.forwarder == was.forwarder && now.sent == was.sent && now.start == was.start)
    && (registered
        && (|| q.size > limits.subscriberBytes
            || was.pendingCount + 1 > limits.subscriberCount
            || was.pendingBytes + q.size > limits.subscriberBytes)
        ==> !stays && now == was)
    && (!registered ==> !stays && now == was)
  }

  /** An event goes to every target at once, each judged by its own counters. */
  ghost predicate OfferedToAll(s: State, q: Queued, s': State) {
    && s'.limits == s.limits && s'.published == s.published + [q]
    && s'.targets.Keys == s.targets.Keys && s'.registered <= s.registered
    && (forall t :: t in s.targets ==>
          Gets(s.limits, q, s.targets[t], t in s.registered, s'.targets[t], t in s'.registered))
  }

  lemma PublishOffersExactly(s: State, q: Queued)
    requires Inv(s) && Enabled(s, Publish(q))
    ensures OfferedToAll(s, q, Next(s, Publish(q)))
  {
    hide Counted, Contiguous, Numbered;
  }

  function Next(s: State, step: Step): State
    requires Enabled(s, step)
  {
    match step
    case Publish(q) => Published(s, q)
    case Subscribe(t) =>
      s.(registered := s.registered + {t}, targets := s.targets[t := Subscriber([], Waiting, 0, 0, [], |s.published|)])
    case Close(t) => s.(registered := s.registered - {t})
    case TakeQueued(t) =>
      var target := s.targets[t];
      s.(targets := s.targets[t := target.(queue := target.queue[1..], forwarder := Holding(target.queue[0]))])
    case HandOver(t) =>
      var target := s.targets[t];
      var item := target.forwarder.item;
      s.(targets := s.targets[t := target.(forwarder := Handed(item), sent := target.sent + [item])])
    case Account(t) =>
      var target := s.targets[t];
      s.(targets := s.targets[t := target.(forwarder := Waiting, pendingCount := target.pendingCount - 1,
                                           pendingBytes := target.pendingBytes - target.forwarder.item.size)])
    case Exit(t) => s.(targets := s.targets[t := s.targets[t].(forwarder := Stopped)])
  }

  /** Nothing but this target changes, and who is registered does not. */
  ghost predicate OnlyTarget(s: State, s': State, t: nat) {
    && s'.limits == s.limits && s'.published == s.published && s'.registered == s.registered
    && s'.targets.Keys == s.targets.Keys && t in s.targets
    && (forall u :: u in s.targets && u != t ==> s'.targets[u] == s.targets[u])
  }

  /** What every other step does: an event is always in one place only, and counted until it is accounted for. */
  ghost predicate Moves(s: State, step: Step, s': State) {
    match step
    case Publish(q) => OfferedToAll(s, q, s')
    case Subscribe(t) =>
      && s'.limits == s.limits && s'.published == s.published
      && (forall u :: u in s'.registered <==> u == t || u in s.registered)
      && s'.targets.Keys == s.targets.Keys + {t} && (forall u :: u in s.targets && u != t ==> s'.targets[u] == s.targets[u])
      && (var now := s'.targets[t];
          && now.queue == now.sent == [] && now.forwarder.Waiting?
          && now.pendingCount == now.pendingBytes == 0 && now.start == |s.published|)
    case Close(t) =>
      && s'.limits == s.limits && s'.published == s.published && s'.targets == s.targets
      && (forall u :: u in s'.registered <==> u in s.registered && u != t)
    case TakeQueued(t) =>
      && OnlyTarget(s, s', t)
      && (var was, now := s.targets[t], s'.targets[t];
          && was.forwarder.Waiting? && now.forwarder.Holding? && was.queue == [now.forwarder.item] + now.queue
          && now.pendingCount == was.pendingCount && now.pendingBytes == was.pendingBytes
          && now.sent == was.sent && now.start == was.start)
    case HandOver(t) =>
      && OnlyTarget(s, s', t)
      && (var was, now := s.targets[t], s'.targets[t];
          && was.forwarder.Holding? && now.forwarder == Handed(was.forwarder.item)
          && now.sent == was.sent + [was.forwarder.item] && now.queue == was.queue
          && now.pendingCount == was.pendingCount && now.pendingBytes == was.pendingBytes && now.start == was.start)
    case Account(t) =>
      && OnlyTarget(s, s', t)
      && (var was, now := s.targets[t], s'.targets[t];
          && was.forwarder.Handed? && now.forwarder.Waiting? && now.sent == was.sent && now.queue == was.queue
          && now.pendingCount + 1 == was.pendingCount && now.pendingBytes + was.forwarder.item.size == was.pendingBytes
          && now.start == was.start)
    case Exit(t) =>
      && OnlyTarget(s, s', t) && t !in s.registered
      && (var was, now := s.targets[t], s'.targets[t];
          && now.forwarder.Stopped? && now.sent == was.sent && now.start == was.start)
  }

  lemma MovesExactly(s: State, step: Step)
    requires Inv(s) && Enabled(s, step)
    ensures Moves(s, step, Next(s, step))
  {
    hide Counted, Contiguous, Numbered;
    match step
    case Publish(q) => PublishOffersExactly(s, q);
    case _ =>
  }

  // ------------------------------------------------------------------
  // What every step keeps
  // ------------------------------------------------------------------

  function Held(f: Forwarder): seq<Queued> {
    if f.Holding? then [f.item] else []
  }

  function Unaccounted(f: Forwarder): seq<Queued> {
    if f.Holding? || f.Handed? then [f.item] else []
  }

  /** Until the forwarder stops, the counters count the queue and at most the one event in its hands. */
  ghost predicate Counted(limits: Limits, target: Subscriber) {
    !target.forwarder.Stopped? ==>
    && target.pendingCount == |target.queue| + |Unaccounted(target.forwarder)|
    && target.pendingBytes == Bytes(target.queue) + Bytes(Unaccounted(target.forwarder))
    && target.pendingCount <= limits.subscriberCount
    && target.pendingBytes <= limits.subscriberBytes
  }

  /** While registered, a subscriber has had, holds or has queued every event since it subscribed. */
  ghost predicate Contiguous(published: seq<Queued>, registered: bool, target: Subscriber) {
    && target.start <= |published|
    && target.sent <= published[target.start..]
    && (!target.forwarder.Stopped? ==>
          target.sent + Held(target.forwarder) + target.queue <= published[target.start..])
    && (registered ==>
          && !target.forwarder.Stopped?
          && target.sent + Held(target.forwarder) + target.queue == published[target.start..])
  }

  ghost predicate Inv(s: State) {
    && Normal(s.limits)
    && Numbered(s.published)
    && s.registered <= s.targets.Keys
    && (forall t :: t in s.targets ==> Counted(s.limits, s.targets[t]))
    && (forall t :: t in s.targets ==> Contiguous(s.published, t in s.registered, s.targets[t]))
  }

  ghost predicate HasRoom(limits: Limits, target: Subscriber, size: nat) {
    Accepts(limits, target, size) ==> |target.queue| < limits.subscriberCount
  }

  /** An event that passes the limit guard finds room in every subscriber's queue. */
  lemma RoomInQueues(s: State, size: nat)
    requires Inv(s)
    ensures s.registered <= s.targets.Keys
    ensures forall t :: t in s.registered ==> HasRoom(s.limits, s.targets[t], size)
  {
    forall t | t in s.registered ensures HasRoom(s.limits, s.targets[t], size) {
      assert Counted(s.limits, s.targets[t]) && Contiguous(s.published, true, s.targets[t]);
    }
  }

  lemma PublishKeepsTarget(s: State, q: Queued, t: nat)
    requires Inv(s) && Enabled(s, Publish(q)) && t in s.targets
    ensures var s' := Next(s, Publish(q));
            Counted(s'.limits, s'.targets[t]) && Contiguous(s'.published, t in s'.registered, s'.targets[t])
  {
    var target := s.targets[t];
    var grown := s.published + [q];
    assert grown[target.start..] == s.published[target.start..] + [q];
    BytesJoin(target.queue, [q]);
    assert Counted(s.limits, target);
    assert Contiguous(s.published, t in s.registered, target);
  }

  lemma BytesOne(q: Queued)
    ensures Bytes([q]) == q.size
  {
    assert Bytes([q][1..]) == 0;
  }

  /** Taking from the queue and handing over only move an event along. */
  lemma MovingKeepsTarget(published: seq<Queued>, registered: bool, limits: Limits, target: Subscriber)
    requires Counted(limits, target) && Contiguous(published, registered, target)
    ensures target.forwarder.Waiting? && target.queue != [] ==>
              var moved := target.(queue := target.queue[1..], forwarder := Holding(target.queue[0]));
              Counted(limits, moved) && Contiguous(published, registered, moved)
    ensures target.forwarder.Holding? ==>
              var item := target.forwarder.item;
              var moved := target.(forwarder := Handed(item), sent := target.sent + [item]);
              Counted(limits, moved) && Contiguous(published, registered, moved)
  {
    if target.forwarder.Waiting? && target.queue != [] {
      BytesOne(target.queue[0]);
      assert target.sent + [] + target.queue == target.sent + [target.queue[0]] + target.queue[1..];
    } else if target.forwarder.Holding? {
      var sent := target.sent + [target.forwarder.item];
      assert sent + [] + target.queue == sent + target.queue;
      assert sent <= published[target.start..] by { assert sent <= sent + target.queue; }
    }
  }

  lemma ForwardKeepsTarget(s: State, step: Step)
    requires Inv(s) && Enabled(s, step)
    requires step.TakeQueued? || step.HandOver? || step.Account? || step.Exit?
    ensures var s' := Next(s, step); var t := step.target;
            Counted(s'.limits, s'.targets[t]) && Contiguous(s'.published, t in s'.registered, s'.targets[t])
  {
    var t := step.target;
    var target := s.targets[t];
    assert Counted(s.limits, target);
    assert Contiguous(s.published, t in s.registered, target);
    match step
    case Account(_) =>
      BytesOne(target.forwarder.item);
    case Exit(_) =>
    case _ =>
      MovingKeepsTarget(s.published, t in s.registered, s.limits, target);
  }

  lemma NextKeepsInv(s: State, step: Step)
    requires Inv(s) && Enabled(s, step)
    ensures Inv(Next(s, step))
  {
    var s' := Next(s, step);
    match step
    case Publish(q) =>
      forall t | t in s'.targets
        ensures Counted(s'.limits, s'.targets[t]) && Contiguous(s'.published, t in s'.registered, s'.targets[t])
      {
        PublishKeepsTarget(s, q, t);
      }
    case Subscribe(t) =>
    case Close(t) =>
      forall u | u in s'.targets ensures Contiguous(s'.published, u in s'.registered, s'.targets[u]) {
        assert Contiguous(s.published, u in s.registered, s.targets[u]);
      }
    case _ =>
      ForwardKeepsTarget(s, step);
  }

  /** A finite run of the bus: each step enabled where it is taken. */
  ghost predicate IsRun(s: State, steps: seq<Step>, end: State)
    decreases |steps|
  {
    if steps == [] then end == s
    else Enabled(s, steps[0]) && IsRun(Next(s, steps[0]), steps[1..], end)
  }

  function Fresh(limits: Limits): State {
    State(limits, [], {}, map[])
  }

  lemma {:induction false} RunKeepsInv(s: State, steps: seq<Step>, end: State)
    requires Inv(s) && IsRun(s, steps, end)
    ensures Inv(end)
    decreases |steps|
  {
    if steps != [] {
      NextKeepsInv(s, steps[0]);
      RunKeepsInv(Next(s, steps[0]), steps[1..], end);
    }
  }

  /** A registered subscriber has had, holds or has queued exactly what it is owed, and its counters say so. */
  ghost predicate AllOwed(target: Subscriber, owed: seq<Queued>) {
    && target.sent + Held(target.forwarder) + target.queue == owed
    && target.pendingCount == |target.queue| + |Unaccounted(target.forwarder)|
    && target.pendingBytes == Bytes(target.queue) + Bytes(Unaccounted(target.forwarder))
  }

  /**
    What a subscriber has been sent is a part of what was published since it
    subscribed. While it is registered the rest is held or queued, and an event
    that passes the limit guard finds room in the queue.
   */
  ghost predicate NothingLost(limits: Limits, end: State, t: nat)
    requires t in end.targets
  {
    var target := end.targets[t];
    && target.start <= |end.published|
    && target.sent <= end.published[target.start..]
    && (t in end.registered ==>
          && AllOwed(target, end.published[target.start..])
          && (target.pendingCount < limits.subscriberCount ==> |target.queue| < limits.subscriberCount))
  }

  /**
    In every reachable state a registered subscriber has had, holds or has
    queued exactly what was published since it subscribed; one that was cut
    off got a prefix of it. The non-blocking send never takes its default branch.
   */
  lemma NoEventLostOrDoubled(limits: Limits, steps: seq<Step>, end: State)
    requires Normal(limits) && IsRun(Fresh(limits), steps, end)
    ensures forall t :: t in end.targets ==> NothingLost(limits, end, t)
  {
    RunKeepsInv(Fresh(limits), steps, end);
    LimitsStay(Fresh(limits), steps, end);
    forall t | t in end.targets ensures NothingLost(limits, end, t) {
      assert Counted(end.limits, end.targets[t]);
      assert Contiguous(end.published, t in end.registered, end.targets[t]);
    }
  }

  lemma {:induction false} LimitsStay(s: State, steps: seq<Step>, end: State)
    requires IsRun(s, steps, end)
    ensures end.limits == s.limits
    decreases |steps|
  {
    if steps != [] {
      LimitsStay(Next(s, steps[0]), steps[1..], end);
    }
  }

  /**
    Resuming asks for a reset exactly when the named event is not in the
    longest suffix that fits; otherwise it returns precisely what came after.
   */
  lemma ReplayIsExact(s: State, after: Option<nat>)
    requires Inv(s)
    ensures var log := LongestFit(s.published, s.limits);
            var reply := ReplayAfter(s.published, s.limits, after);
            && (reply.Reset? <==> after.Some? && forall q :: q in log ==> q.envelope.id != after.value)
            && (reply.Events? && after.Some? ==>
                  && reply.items == s.published[after.value..]
                  && (forall q :: q in s.published ==> (q in reply.items <==> q.envelope.id > after.value)))
            && (after.None? ==> reply == Events(log))
  {
    var k := FitStart(s.published, s.limits);
    var log := LongestFit(s.published, s.limits);
    if after.Some? {
      var id := after.value;
      if k < id <= |s.published| {
        assert log[id - 1 - k].envelope.id == id;
        forall q | q in s.published ensures q in s.published[id..] <==> q.envelope.id > id {
          var i :| 0 <= i < |s.published| && s.published[i] == q;
          if i >= id {
            assert s.published[id..][i - id] == q;
          }
          if q in s.published[id..] {
            var j :| 0 <= j < |s.published[id..]| && s.published[id..][j] == q;
            assert s.published[id + j] == q;
          }
        }
      } else {
        forall q | q in log ensures q.envelope.id != id {
          var i :| 0 <= i < |log| && log[i] == q;
          assert s.published[k + i] == q;
        }
      }
    }
  }
}
