/** The exchange record and its life cycle (internal/capture/model.go). */
module Capture {
  import opened Common
  import opened Ordering

  type Bytes = seq<bv8>

  datatype Transport = HTTP | UDP

  datatype State = Receiving | Forwarding | Completed | Failed | Cancelled | Discarded

  /** The optional persistence status of an exchange: absent, or one of three states. */
  datatype Persistence = Unmanaged | Queued | Persisted | Unpersisted

  /**
    `completed` is None while CompletedAt is the zero time. `started` and
    `completed` are wall-clock times; `monotonic` is the monotonic reading that
    both carry besides: a datagram has one, as its time comes from time.Now
    alone, an HTTP exchange has none after UTC, and none is stored. `datagram`
    and `response` are None where the source's pointers are nil, and hold the
    payload and the body otherwise.
   */
  datatype Exchange = Exchange(
    id: ID,
    transport: Transport,
    state: State,
    revision: nat,
    started: int,
    completed: Option<int>,
    monotonic: Option<int>,
    requestBody: Bytes,
    datagram: Option<Bytes>,
    response: Option<Bytes>,
    persistence: Persistence)

  predicate IsTerminal(state: State) {
    state.Completed? || state.Failed? || state.Cancelled? || state.Discarded?
  }

  predicate ValidTransition(current: State, next: State) {
    match current
    case Receiving => !next.Receiving?
    case Forwarding => next.Completed? || next.Failed? || next.Cancelled?
    case _ => false
  }

  /** The exchange after a transition the source accepts. */
  function Moved(x: Exchange, next: State, at: int): Exchange {
    x.(state := next, revision := x.revision + 1,
       completed := if IsTerminal(next) then Some(at) else x.completed)
  }

  /** A state is terminal exactly when no transition leaves it. */
  lemma TerminalExactly(state: State)
    ensures IsTerminal(state) <==> forall next :: !ValidTransition(state, next)
  {
    assert ValidTransition(Receiving, Forwarding) && ValidTransition(Forwarding, Completed);
  }

  ghost predicate Chain(states: seq<State>) {
    forall i :: 1 <= i < |states| ==> ValidTransition(states[i - 1], states[i])
  }

  /** However many transitions follow one another, these are all there are. */
  lemma ChainsExactly(states: seq<State>)
    requires |states| >= 2
    ensures Chain(states)
       <==> || (|states| == 2 && states[0].Receiving? && !states[1].Receiving?)
            || (|states| == 2 && states[0].Forwarding? && states[1] in [Completed, Failed, Cancelled])
            || (|states| == 3 && states[0].Receiving? && states[1].Forwarding? && states[2] in [Completed, Failed, Cancelled])
  {
    if Chain(states) {
      ChainLink(states, 1);
      if |states| >= 3 {
        ChainLink(states, 2);
        if |states| >= 4 {
          ChainLink(states, 3);
        }
      }
      hide Chain;
    }
  }

  lemma ChainLink(states: seq<State>, i: nat)
    requires Chain(states) && 1 <= i < |states|
    ensures ValidTransition(states[i - 1], states[i])
  {
  }

  /** A transition raises the revision by one, sets the completion time exactly when it ends the exchange, and keeps the rest. */
  lemma MovesExactly(x: Exchange, next: State, at: int)
    requires ValidTransition(x.state, next)
    ensures var y := Moved(x, next, at);
            && y.state == next && y.revision == x.revision + 1
            && (next.Forwarding? ==> y.completed == x.completed)
            && (!next.Forwarding? ==> y.completed == Some(at))
            && y.id == x.id && y.transport == x.transport && y.started == x.started && y.monotonic == x.monotonic
            && y.requestBody == x.requestBody && y.datagram == x.datagram && y.response == x.response
            && y.persistence == x.persistence
  {
  }

  /** The row of an exchange has no monotonic time. */
  function Stored(x: Exchange): Exchange {
    x.(monotonic := None)
  }

  function OrderingTime(x: Exchange): int {
    if x.completed.Some? then x.completed.value else x.started
  }

  function KeyOf(x: Exchange): (k: Key)
    ensures k.id == x.id
    ensures x.completed == Some(k.time) || (x.completed.None? && k.time == x.started)
  {
    Key(OrderingTime(x), x.id)
  }

  /** Time.Equal of the ordering times: two monotonic readings are compared instead of the wall clock. */
  predicate Simultaneous(x: Exchange, y: Exchange) {
    if x.monotonic.Some? && y.monotonic.Some? then x.monotonic == y.monotonic
    else OrderingTime(x) == OrderingTime(y)
  }

  /** Time.After of the ordering times. */
  predicate Later(x: Exchange, y: Exchange) {
    if x.monotonic.Some? && y.monotonic.Some? then x.monotonic.value > y.monotonic.value
    else OrderingTime(x) > OrderingTime(y)
  }

  /** The comparison both sorts use. It is not transitive: see Listing.ListingDependsOnOrder. */
  predicate SortsBefore(x: Exchange, y: Exchange) {
    if Simultaneous(x, y) then x.id > y.id else Later(x, y)
  }

  /** Two exchanges with monotonic readings have the same order by wall clock; ids break ties. */
  predicate SteadyPair(x: Exchange, y: Exchange) {
    x.monotonic.Some? && y.monotonic.Some? ==>
      (Newer(Key(x.monotonic.value, x.id), Key(y.monotonic.value, y.id)) <==> Newer(KeyOf(x), KeyOf(y)))
  }

  /** No two of these exchanges are ordered differently by their wall-clock and their monotonic times. */
  ghost predicate Steady(items: map<ID, Exchange>) {
    forall i, j :: i in items && j in items ==> SteadyPair(items[i], items[j])
  }

  /** As exchanges read from SQLite are: without monotonic readings. */
  ghost predicate Unstamped(items: map<ID, Exchange>) {
    forall id :: id in items ==> items[id].monotonic.None?
  }

  /** The comparison is the order of the keys exactly on a steady pair. */
  lemma ComparesKeysExactly(x: Exchange, y: Exchange)
    ensures (SortsBefore(x, y) <==> Newer(KeyOf(x), KeyOf(y))) <==> SteadyPair(x, y)
  {
  }

  /** Whatever the ids: exactly when both clocks order the two times alike. */
  lemma SteadyWhateverIds(x: Exchange, y: Exchange)
    requires x.monotonic.Some? && y.monotonic.Some?
    ensures (forall a: ID, b: ID :: a != b ==> SteadyPair(x.(id := a), y.(id := b)))
       <==> && (x.monotonic.value > y.monotonic.value <==> OrderingTime(x) > OrderingTime(y))
            && (x.monotonic.value < y.monotonic.value <==> OrderingTime(x) < OrderingTime(y))
  {
    assert SteadyPair(x.(id := 1), y.(id := 0)) && SteadyPair(x.(id := 0), y.(id := 1)) ==>
        && (x.monotonic.value > y.monotonic.value <==> OrderingTime(x) > OrderingTime(y))
        && (x.monotonic.value < y.monotonic.value <==> OrderingTime(x) < OrderingTime(y));
  }

  function KeysOf(xs: seq<Exchange>): (ks: seq<Key>)
    ensures |ks| == |xs|
    ensures forall i :: 0 <= i < |xs| ==> ks[i] == KeyOf(xs[i])
  {
    seq(|xs|, i requires 0 <= i < |xs| => KeyOf(xs[i]))
  }

  /** A map that files every exchange under its own id. */
  ghost predicate Filed(items: map<ID, Exchange>) {
    forall id :: id in items ==> items[id].id == id
  }

  ghost function MapKeys(items: map<ID, Exchange>): set<Key> {
    set id | id in items :: KeyOf(items[id])
  }

  /** Every listed key is the key of the exchange filed under its id. */
  ghost predicate Known(keys: seq<Key>, items: map<ID, Exchange>) {
    forall i :: 0 <= i < |keys| ==> keys[i].id in items && KeyOf(items[keys[i].id]) == keys[i]
  }

  /** The exchanges behind a list of keys. */
  ghost function Records(keys: seq<Key>, items: map<ID, Exchange>): (xs: seq<Exchange>)
    requires Known(keys, items)
    ensures |xs| == |keys|
    ensures forall i :: 0 <= i < |keys| ==> xs[i] == items[keys[i].id]
  {
    seq(|keys|, i requires 0 <= i < |keys| => items[keys[i].id])
  }

  lemma IsRecord(keys: seq<Key>, items: map<ID, Exchange>, x: Exchange)
    requires Filed(items) && Known(keys, items)
    ensures x in Records(keys, items) <==> x.id in items && items[x.id] == x && KeyOf(x) in keys
  {
    var xs := Records(keys, items);
    if x.id in items && items[x.id] == x && KeyOf(x) in keys {
      var i :| 0 <= i < |keys| && keys[i] == KeyOf(x);
      assert xs[i] == x;
    }
  }

  lemma KeyOwner(items: map<ID, Exchange>, k: Key)
    requires Filed(items)
    ensures k in MapKeys(items) <==> k.id in items && KeyOf(items[k.id]) == k
  {
  }

  lemma NewestKnown(items: map<ID, Exchange>, keys: set<Key>)
    requires Filed(items) && keys <= MapKeys(items)
    ensures Known(Newest(keys), items)
  {
    var s := Newest(keys);
    forall i | 0 <= i < |s| ensures s[i].id in items && KeyOf(items[s[i].id]) == s[i] {
      assert s[i] in Elements(s);
      KeyOwner(items, s[i]);
    }
  }
}
