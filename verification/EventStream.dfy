/**
  One browser following the event stream through cut-offs and reconnects
  (internal/httpapi/sse.go, web/src/lib/api/events.ts, web/src/lib/api/contract.ts).
 */
module EventStream {
  import opened Common
  import opened BusProtocol

  // ------------------------------------------------------------------
  // The browser's reducer
  // ------------------------------------------------------------------

  datatype Summary = Summary(id: ID, revision: nat)

  datatype StreamState = StreamState(
    cursor: Option<nat>, items: seq<Summary>, latest: Option<Envelope>, refreshRequired: bool)

  /** A zero revision is omitted from the JSON, and the guard wants a number. */
  predicate PassesGuard(e: Envelope) {
    e.revision != 0
  }

  function Without(items: seq<Summary>, id: Option<ID>): seq<Summary> {
    if items == [] then []
    else (if Some(items[0].id) == id then [] else [items[0]]) + Without(items[1..], id)
  }

  predicate Stale(state: StreamState, e: Envelope) {
    state.cursor.Some? && e.id <= state.cursor.value
  }

  function Reduce(state: StreamState, e: Envelope): StreamState {
    if Stale(state, e) then state
    else if e.kind.HistoryCleared? then StreamState(Some(e.id), [], Some(e), false)
    else if e.kind.ExchangeEvicted? || e.kind.ExchangeDeleted? then
      state.(cursor := Some(e.id), items := Without(state.items, e.exchange), latest := Some(e))
    else state.(cursor := Some(e.id), latest := Some(e), refreshRequired := !e.kind.ConfigChanged?)
  }

  /** How many of the first `n` entries have an id that is not `gone`. */
  function Staying(items: seq<Summary>, gone: set<ID>, n: nat): nat
    requires n <= |items|
  {
    if n == 0 then 0 else Staying(items, gone, n - 1) + if items[n - 1].id in gone then 0 else 1
  }

  /** `part` has exactly the entries whose id is not `gone`, each behind those that stay before it. */
  ghost predicate KeptInOrder(part: seq<Summary>, whole: seq<Summary>, gone: set<ID>) {
    && |part| == Staying(whole, gone, |whole|)
    && forall i :: 0 <= i < |whole| ==> Placed(part, whole, gone, i)
  }

  predicate Placed(part: seq<Summary>, whole: seq<Summary>, gone: set<ID>, i: nat)
    requires i < |whole|
  {
    whole[i].id !in gone ==> Staying(whole, gone, i) < |part| && part[Staying(whole, gone, i)] == whole[i]
  }

  ghost predicate Removal(e: Envelope) {
    e.kind.ExchangeEvicted? || e.kind.ExchangeDeleted?
  }

  lemma {:induction false} WithoutLast(items: seq<Summary>, id: Option<ID>)
    requires items != []
    ensures Without(items, id)
         == Without(items[..|items| - 1], id) + if Some(items[|items| - 1].id) == id then [] else [items[|items| - 1]]
  {
    var n := |items| - 1;
    if n > 0 {
      WithoutLast(items[1..], id);
      assert items[1..][..n - 1] == items[..n][1..];
    } else {
      assert items[1..] == [] && items[..0] == [];
    }
  }

  lemma {:induction false} StayingOfFront(items: seq<Summary>, gone: set<ID>, m: nat, n: nat)
    requires n <= m <= |items|
    ensures Staying(items[..m], gone, n) == Staying(items, gone, n)
  {
    if n > 0 {
      StayingOfFront(items, gone, m, n - 1);
    }
  }

  lemma {:induction false} StayingGrows(items: seq<Summary>, gone: set<ID>, m: nat, n: nat)
    requires m <= n <= |items|
    ensures Staying(items, gone, m) <= Staying(items, gone, n)
  {
    if m < n {
      StayingGrows(items, gone, m, n - 1);
    }
  }

  lemma KeptLonger(part: seq<Summary>, items: seq<Summary>, gone: set<ID>)
    requires items != [] && KeptInOrder(part, items[..|items| - 1], gone)
    ensures var last := items[|items| - 1];
            KeptInOrder(if last.id in gone then part else part + [last], items, gone)
  {
    var n := |items| - 1;
    var longer := if items[n].id in gone then part else part + [items[n]];
    StayingOfFront(items, gone, n, n);
    forall i | 0 <= i < |items| ensures Placed(longer, items, gone, i) {
      StayingOfFront(items, gone, n, i);
      if i < n {
        assert Placed(part, items[..n], gone, i);
      }
    }
  }

  lemma {:induction false} WithoutKeeps(items: seq<Summary>, id: Option<ID>)
    ensures KeptInOrder(Without(items, id), items, if id.Some? then {id.value} else {})
    decreases |items|
  {
    var gone := if id.Some? then {id.value} else {};
    if items != [] {
      WithoutKeeps(items[..|items| - 1], id);
      WithoutLast(items, id);
      hide KeptInOrder, Without;
      KeptLonger(Without(items[..|items| - 1], id), items, gone);
      assert Without(items[..|items| - 1], id) + [] == Without(items[..|items| - 1], id);
    }
  }

  /** Counting what stays of what stayed. */
  lemma {:induction false} StayingAgain(middle: seq<Summary>, whole: seq<Summary>, gone: set<ID>, more: set<ID>, i: nat)
    requires KeptInOrder(middle, whole, gone) && i <= |whole|
    ensures Staying(whole, gone, i) <= |middle|
    ensures Staying(middle, more, Staying(whole, gone, i)) == Staying(whole, gone + more, i)
  {
    StayingGrows(whole, gone, i, |whole|);
    if i > 0 {
      StayingAgain(middle, whole, gone, more, i - 1);
      var k := Staying(whole, gone, i - 1);
      assert Placed(middle, whole, gone, i - 1);
      hide KeptInOrder;
      assert Staying(whole, gone, i) == k + if whole[i - 1].id in gone then 0 else 1;
      if whole[i - 1].id !in gone {
        assert Staying(middle, more, k + 1) == Staying(middle, more, k) + if middle[k].id in more then 0 else 1;
      }
    }
  }

  lemma KeptAgain(part: seq<Summary>, middle: seq<Summary>, whole: seq<Summary>, gone: set<ID>, more: set<ID>)
    requires KeptInOrder(middle, whole, gone) && KeptInOrder(part, middle, more)
    ensures KeptInOrder(part, whole, gone + more)
  {
    StayingAgain(middle, whole, gone, more, |whole|);
    forall i | 0 <= i < |whole| ensures Placed(part, whole, gone + more, i) {
      StayingAgain(middle, whole, gone, more, i);
      if whole[i].id !in gone {
        assert Placed(middle, whole, gone, i);
        assert Placed(part, middle, more, Staying(whole, gone, i));
      }
    }
  }

  lemma {:induction false} AllStay(items: seq<Summary>, n: nat)
    requires n <= |items|
    ensures Staying(items, {}, n) == n
  {
    if n > 0 {
      AllStay(items, n - 1);
    }
  }

  lemma AllKept(items: seq<Summary>)
    ensures KeptInOrder(items, items, {})
  {
    AllStay(items, |items|);
    forall i | 0 <= i < |items| ensures Placed(items, items, {}, i) {
      AllStay(items, i);
    }
  }

  /** What a new event does to the browser's state, kind by kind. */
  ghost predicate ReducedRight(before: StreamState, e: Envelope, after: StreamState) {
    && after.cursor == Some(e.id) && after.latest == Some(e)
    && (if e.kind.HistoryCleared? then after.items == [] && !after.refreshRequired
        else if Removal(e) then
          && KeptInOrder(after.items, before.items, if e.exchange.Some? then {e.exchange.value} else {})
          && after.refreshRequired == before.refreshRequired
        else after.items == before.items && (after.refreshRequired <==> !e.kind.ConfigChanged?))
  }

  /** A new event is taken in; one at or below the cursor changes nothing. */
  lemma ReducesExactly(state: StreamState, e: Envelope)
    ensures if state.cursor.Some? && e.id <= state.cursor.value then Reduce(state, e) == state
            else ReducedRight(state, e, Reduce(state, e))
  {
    WithoutKeeps(state.items, e.exchange);
  }

  function Dispatch(state: StreamState, e: Envelope): StreamState {
    if PassesGuard(e) then Reduce(state, e) else state
  }

  function IdsOf(items: seq<Summary>): set<ID> {
    set x | x in items :: x.id
  }

  /** The list without the entries whose id came before. */
  function Unique(items: seq<Summary>): seq<Summary> {
    if items == [] then []
    else
      var n := |items| - 1;
      if items[n].id in IdsOf(items[..n]) then Unique(items[..n]) else Unique(items[..n]) + [items[n]]
  }

  /** Where an id first occurs. */
  function FirstAt(items: seq<Summary>, id: ID): (i: nat)
    requires id in IdsOf(items)
    ensures i < |items| && items[i].id == id
    ensures forall j :: 0 <= j < i ==> items[j].id != id
  {
    var n := |items| - 1;
    IdsGrow(items);
    if id in IdsOf(items[..n]) then FirstAt(items[..n], id)
    else
      NotBefore(items, id);
      n
  }

  lemma IdsGrow(items: seq<Summary>)
    requires items != []
    ensures IdsOf(items) == IdsOf(items[..|items| - 1]) + {items[|items| - 1].id}
  {
    assert items == items[..|items| - 1] + [items[|items| - 1]];
  }

  lemma NotBefore(items: seq<Summary>, id: ID)
    requires items != [] && id !in IdsOf(items[..|items| - 1])
    ensures forall j :: 0 <= j < |items| - 1 ==> items[j].id != id
  {
    var front := items[..|items| - 1];
    forall j | 0 <= j < |items| - 1 ensures items[j].id != id {
      assert front[j] in front;
    }
  }

  /** Every id is there, with its first summary, and in the order of first occurrence. */
  ghost predicate KeepsFirst(unique: seq<Summary>, items: seq<Summary>) {
    && IdsOf(unique) == IdsOf(items)
    && (forall k :: 0 <= k < |unique| ==>
          unique[k].id in IdsOf(items) && unique[k] == items[FirstAt(items, unique[k].id)])
    && (forall k, l :: 0 <= k < l < |unique| ==> FirstAt(items, unique[k].id) < FirstAt(items, unique[l].id))
  }

  lemma FirstStays(items: seq<Summary>, id: ID)
    requires items != [] && id in IdsOf(items[..|items| - 1])
    ensures id in IdsOf(items) && FirstAt(items, id) == FirstAt(items[..|items| - 1], id)
  {
    IdsGrow(items);
  }

  lemma KeepsFirstLonger(unique: seq<Summary>, items: seq<Summary>)
    requires items != [] && KeepsFirst(unique, items[..|items| - 1])
    ensures items[|items| - 1].id in IdsOf(items[..|items| - 1]) ==> KeepsFirst(unique, items)
    ensures items[|items| - 1].id !in IdsOf(items[..|items| - 1]) ==> KeepsFirst(unique + [items[|items| - 1]], items)
  {
    var front := items[..|items| - 1];
    IdsGrow(items);
    forall k | 0 <= k < |unique|
      ensures unique[k].id in IdsOf(items) && FirstAt(items, unique[k].id) == FirstAt(front, unique[k].id)
    {
      FirstStays(items, unique[k].id);
    }
    IdsGrow(unique + [items[|items| - 1]]);
    assert (unique + [items[|items| - 1]])[..|unique|] == unique;
  }

  /** Deduplication keeps the first summary of every id, in their order. */
  lemma {:induction false} UniqueKeepsFirst(items: seq<Summary>)
    ensures KeepsFirst(Unique(items), items)
  {
    if items != [] {
      UniqueKeepsFirst(items[..|items| - 1]);
      KeepsFirstLonger(Unique(items[..|items| - 1]), items);
    }
  }

  method UniqueNewest(items: seq<Summary>) returns (unique: seq<Summary>)
    ensures unique == Unique(items)
  {
    var seen: set<ID> := {};
    unique := [];
    for i := 0 to |items|
      invariant seen == IdsOf(items[..i]) && unique == Unique(items[..i])
    {
      assert items[..i + 1][..i] == items[..i];
      IdsGrow(items[..i + 1]);
      if items[i].id !in seen {
        unique := unique + [items[i]];
      }
      seen := seen + {items[i].id};
    }
    assert items[..|items|] == items;
  }

  /** Both a snapshot and a resync replace what the browser holds. */
  function Restarted(cursor: Option<nat>, items: seq<Summary>, latest: Option<Envelope>): StreamState {
    StreamState(cursor, Unique(items), latest, false)
  }

  // ------------------------------------------------------------------
  // Connections
  // ------------------------------------------------------------------

  /** `at` is history: how much had been published when the snapshot was taken. */
  datatype Frame = Snapshot(cursor: Option<nat>, items: seq<Summary>, at: nat) | Event(envelope: Envelope)

  /** Rejected is the gap between a refused replay and the resync snapshot. */
  datatype Connection = Offline | Rejected | Live(target: nat, wire: seq<Frame>)

  /**
    `lastID` is the Last-Event-ID the browser will send. The rest after
    `connection` is history: the latest snapshot's position, the list it carried
    and the state it led to, how far the browser has read since, and the events
    its reducer took.
   */
  datatype Client = Client(
    lastID: Option<nat>,
    stream: StreamState,
    connection: Connection,
    base: Option<nat>,
    listed: seq<Summary>,
    snapshot: StreamState,
    position: nat,
    applied: seq<Envelope>)

  datatype System = System(bus: State, client: Client)

  function Frames(qs: seq<Queued>): (fs: seq<Frame>)
    ensures |fs| == |qs|
    ensures forall i :: 0 <= i < |qs| ==> fs[i] == Event(qs[i].envelope)
  {
    seq(|qs|, i requires 0 <= i < |qs| => Event(qs[i].envelope))
  }

  function SnapshotFrame(bus: State, items: seq<Summary>): Frame {
    Snapshot(if LongestFit(bus.published, bus.limits) == [] then None else Some(|bus.published|), items, |bus.published|)
  }

  datatype Move =
    | BusMove(step: Step)                            // anything else that happens on the bus
    | OpenFresh(target: nat, items: seq<Summary>)    // connect without a Last-Event-ID
    | Resume(target: nat)                            // connect with one
    | Resnapshot(target: nat, items: seq<Summary>)   // resync after a refused replay
    | Forward                                        // the handler receives and writes an event
    | Receive                                        // the browser reads one frame
    | Drop                                           // the connection ends, with whatever it still carried

  predicate Allowed(s: System, m: Move) {
    var c := s.client.connection;
    match m
    case BusMove(step) => Enabled(s.bus, step) && !(step.HandOver? && c.Live? && step.target == c.target)
    case OpenFresh(t, _) => c.Offline? && s.client.lastID.None? && t !in s.bus.targets
    case Resume(t) => c.Offline? && s.client.lastID.Some? && t !in s.bus.targets
    case Resnapshot(t, _) => c.Rejected? && t !in s.bus.targets
    case Forward => c.Live? && Enabled(s.bus, HandOver(c.target))
    case Receive => c.Live? && c.wire != []
    case Drop => !c.Offline?
  }

  function Read(client: Client, frame: Frame): Client {
    match frame
    case Snapshot(cursor, items, at) =>
      var restarted := Restarted(cursor, items, client.stream.latest);
      client.(lastID := if cursor.Some? then cursor else client.lastID, stream := restarted,
              base := Some(at), listed := items, snapshot := restarted, position := at, applied := [])
    case Event(e) =>
      client.(lastID := Some(e.id), stream := Dispatch(client.stream, e), position := client.position + 1,
              applied := if PassesGuard(e) && !Stale(client.stream, e) then client.applied + [e] else client.applied)
  }

  function Moved(s: System, m: Move): System
    requires Allowed(s, m)
  {
    var client := s.client;
    match m
    case BusMove(step) => s.(bus := Next(s.bus, step))
    case OpenFresh(t, items) =>
      System(Next(s.bus, Subscribe(t)), client.(connection := Live(t, [SnapshotFrame(s.bus, items)])))
    case Resume(t) =>
      var reply := ReplayAfter(s.bus.published, s.bus.limits, client.lastID);
      System(Next(s.bus, Subscribe(t)),
             client.(connection := if reply.Reset? then Rejected else Live(t, Frames(reply.items))))
    case Resnapshot(t, items) =>
      System(Next(s.bus, Subscribe(t)), client.(connection := Live(t, [SnapshotFrame(s.bus, items)])))
    case Forward =>
      var t := client.connection.target;
      var item := s.bus.targets[t].forwarder.item;
      System(Next(s.bus, HandOver(t)),
             client.(connection := Live(t, client.connection.wire + [Event(item.envelope)])))
    case Receive =>
      var wire := client.connection.wire;
      s.(client := Read(client, wire[0]).(connection := Live(client.connection.target, wire[1..])))
    case Drop => s.(client := client.(connection := Offline))
  }

  /** Nothing the browser has received or remembers changes. */
  ghost predicate SameBrowser(was: Client, now: Client) {
    now.lastID == was.lastID && now.stream == was.stream && SameHistory(was, now)
  }

  ghost predicate SameHistory(was: Client, now: Client) {
    && now.base == was.base && now.listed == was.listed && now.snapshot == was.snapshot
    && now.position == was.position && now.applied == was.applied
  }

  /** A new connection starts with a snapshot at the end of the log, whose cursor is the last event if the log has one. */
  ghost predicate StartsWithSnapshot(bus: State, c: Connection, target: nat, items: seq<Summary>) {
    && c.Live? && c.target == target && |c.wire| == 1 && c.wire[0].Snapshot?
    && c.wire[0].items == items && c.wire[0].at == |bus.published|
    && (c.wire[0].cursor.Some? ==> c.wire[0].cursor.value == |bus.published|)
    && (c.wire[0].cursor.None? <==> LongestFit(bus.published, bus.limits) == [])
  }

  /** A resumed one carries exactly the events after the one named, and is refused when the log no longer has that one. */
  ghost predicate StartsWithReplay(bus: State, c: Connection, target: nat, id: nat) {
    && (c.Rejected? <==> forall q :: q in LongestFit(bus.published, bus.limits) ==> q.envelope.id != id)
    && (!c.Rejected? ==>
          && c.Live? && c.target == target && id <= |bus.published| && |c.wire| == |bus.published| - id
          && forall i :: 0 <= i < |c.wire| ==> c.wire[i] == Event(bus.published[id + i].envelope))
  }

  /** What reading one frame does to the browser. */
  ghost predicate Reads(was: Client, frame: Frame, now: Client) {
    match frame
    case Snapshot(cursor, items, at) =>
      && now.lastID == (if cursor.Some? then cursor else was.lastID)
      && now.stream.cursor == cursor && KeepsFirst(now.stream.items, items)
      && now.stream.latest == was.stream.latest && !now.stream.refreshRequired
      && now.base == Some(at) && now.position == at && now.listed == items && now.snapshot == now.stream && now.applied == []
    case Event(e) =>
      && now.lastID == Some(e.id) && now.position == was.position + 1
      && now.base == was.base && now.listed == was.listed && now.snapshot == was.snapshot
      && (e.revision > 0 && (was.stream.cursor.Some? ==> was.stream.cursor.value < e.id) ==>
            ReducedRight(was.stream, e, now.stream) && now.applied == was.applied + [e])
      && (e.revision == 0 || (was.stream.cursor.Some? && e.id <= was.stream.cursor.value) ==>
            now.stream == was.stream && now.applied == was.applied)
  }

  /** What each move does to the bus, the wire and the browser. */
  ghost predicate Goes(s: System, m: Move, t: System) {
    var was, now := s.client, t.client;
    match m
    case BusMove(step) => Moves(s.bus, step, t.bus) && now == was
    case OpenFresh(target, items) =>
      && Moves(s.bus, Subscribe(target), t.bus) && SameBrowser(was, now)
      && StartsWithSnapshot(s.bus, now.connection, target, items)
    case Resume(target) =>
      && Moves(s.bus, Subscribe(target), t.bus) && SameBrowser(was, now)
      && was.lastID.Some? && StartsWithReplay(s.bus, now.connection, target, was.lastID.value)
    case Resnapshot(target, items) =>
      && Moves(s.bus, Subscribe(target), t.bus) && SameBrowser(was, now)
      && StartsWithSnapshot(s.bus, now.connection, target, items)
    case Forward =>
      && was.connection.Live? && Moves(s.bus, HandOver(was.connection.target), t.bus) && SameBrowser(was, now)
      && was.connection.target in s.bus.targets && s.bus.targets[was.connection.target].forwarder.Holding?
      && now.connection == Live(was.connection.target, was.connection.wire
                                + [Event(s.bus.targets[was.connection.target].forwarder.item.envelope)])
    case Receive =>
      && t.bus == s.bus && was.connection.Live? && now.connection.Live? && now.connection.target == was.connection.target
      && was.connection.wire != [] && was.connection.wire == [was.connection.wire[0]] + now.connection.wire
      && Reads(was, was.connection.wire[0], now)
    case Drop => t.bus == s.bus && now.connection.Offline? && SameBrowser(was, now)
  }

  lemma ReadsExactly(client: Client, frame: Frame, c: Connection)
    ensures Reads(client, frame, Read(client, frame).(connection := c))
  {
    match frame
    case Snapshot(_, items, _) => UniqueKeepsFirst(items);
    case Event(e) => ReducesExactly(client.stream, e);
  }

  lemma ReplaysExactly(bus: State, target: nat, id: nat)
    requires Inv(bus)
    ensures var reply := ReplayAfter(bus.published, bus.limits, Some(id));
            StartsWithReplay(bus, if reply.Reset? then Rejected else Live(target, Frames(reply.items)), target, id)
  {
    ReplayIsExact(bus, Some(id));
  }

  lemma GoesExactly(s: System, m: Move)
    requires Inv(s.bus) && Allowed(s, m)
    ensures Goes(s, m, Moved(s, m))
  {
    hide Moves, Reads, StartsWithReplay, Inv;
    match m
    case BusMove(step) => MovesExactly(s.bus, step);
    case OpenFresh(t, _) => MovesExactly(s.bus, Subscribe(t));
    case Resnapshot(t, _) => MovesExactly(s.bus, Subscribe(t));
    case Resume(t) =>
      MovesExactly(s.bus, Subscribe(t));
      ReplaysExactly(s.bus, t, s.client.lastID.value);
    case Forward => MovesExactly(s.bus, HandOver(s.client.connection.target));
    case Receive => ReadsExactly(s.client, s.client.connection.wire[0], Moved(s, m).client.connection);
    case Drop =>
  }

  // ------------------------------------------------------------------
  // What the browser has
  // ------------------------------------------------------------------

  /** The published events the browser's guard lets through. */
  function Visible(qs: seq<Queued>): seq<Envelope> {
    if qs == [] then []
    else Visible(qs[..|qs| - 1]) + (if PassesGuard(qs[|qs| - 1].envelope) then [qs[|qs| - 1].envelope] else [])
  }

  /** The reducer run over events that arrive once each and in order. */
  function Folded(state: StreamState, qs: seq<Queued>): StreamState {
    if qs == [] then state else Dispatch(Folded(state, qs[..|qs| - 1]), qs[|qs| - 1].envelope)
  }

  /** The browser is exactly at `position`: one fold, no gap, no repeat. */
  ghost predicate Synced(client: Client, published: seq<Queued>) {
    client.base.Some? ==>
      && client.base.value <= client.position <= |published|
      && client.applied == Visible(published[client.base.value..client.position])
      && client.stream == Folded(client.snapshot, published[client.base.value..client.position])
  }

  /** The state the latest snapshot led to is made of its list, and its cursor is no later than its position. */
  ghost predicate Based(client: Client) {
    client.base.Some? ==>
      && client.snapshot.items == Unique(client.listed)
      && (client.snapshot.cursor.Some? ==> client.snapshot.cursor.value <= client.base.value)
  }

  ghost predicate CursorBehind(client: Client) {
    client.base.Some? && client.stream.cursor.Some? ==> client.stream.cursor.value <= client.position
  }

  /** The id to resume from is the position, or one the log can never honour again. */
  ghost predicate ResumesRight(client: Client, bus: State) {
    match client.lastID
    case None => true
    case Some(id) =>
      client.base.Some? && (id == client.position || (client.position == client.base.value && id <= FitStart(bus.published, bus.limits)))
  }

  ghost predicate WireRight(client: Client, bus: State) {
    client.connection.Live? ==>
      var t := client.connection.target;
      var wire := client.connection.wire;
      t in bus.targets && bus.targets[t].start + |bus.targets[t].sent| <= |bus.published| &&
      var start := bus.targets[t].start;
      var written := start + |bus.targets[t].sent|;
      if wire != [] && wire[0].Snapshot? then
        && wire[0].at == start
        && (if wire[0].cursor.Some? then wire[0].cursor.value == start else start <= FitStart(bus.published, bus.limits))
        && (client.lastID.Some? ==> client.lastID.value <= start)
        && wire[1..] == Frames(bus.published[start..written])
      else
        && client.base.Some?
        && client.position <= written
        && wire == Frames(bus.published[client.position..written])
  }

  ghost predicate ClientInv(client: Client, bus: State) {
    && Synced(client, bus.published)
    && Based(client)
    && CursorBehind(client)
    && ResumesRight(client, bus)
    && WireRight(client, bus)
    && (client.connection.Rejected? ==> client.lastID.Some?)
  }

  ghost predicate SystemInv(s: System) {
    Inv(s.bus) && ClientInv(s.client, s.bus)
  }

  // ------------------------------------------------------------------
  // Every move keeps it
  // ------------------------------------------------------------------

  /** A later bus: more published, and what `t` was sent unchanged. */
  ghost predicate Later(bus: State, bus': State) {
    && bus'.limits == bus.limits
    && bus.published <= bus'.published
    && FitStart(bus.published, bus.limits) <= FitStart(bus'.published, bus'.limits)
  }

  ghost predicate SameReader(bus: State, bus': State, t: nat) {
    t in bus.targets ==>
      t in bus'.targets && bus'.targets[t].start == bus.targets[t].start && bus'.targets[t].sent == bus.targets[t].sent
  }

  lemma StepLater(bus: State, step: Step)
    requires Inv(bus) && Enabled(bus, step)
    ensures Later(bus, Next(bus, step))
    ensures forall t :: !(step.HandOver? && step.target == t) ==> SameReader(bus, Next(bus, step), t)
  {
    if step.Publish? {
      FitStartGrows(bus.published, step.q, bus.limits);
    }
  }

  lemma LaterKeepsWire(client: Client, bus: State, bus': State)
    requires WireRight(client, bus) && Later(bus, bus')
    requires client.connection.Live? ==> SameReader(bus, bus', client.connection.target)
    ensures WireRight(client, bus')
  {
    if client.connection.Live? {
      var target := bus.targets[client.connection.target];
      var start, written := target.start, target.start + |target.sent|;
      assert bus'.published[start..written] == bus.published[start..written];
      if client.base.Some? && client.position <= written {
        assert bus'.published[client.position..written] == bus.published[client.position..written];
      }
    }
  }

  lemma LaterKeepsClient(client: Client, bus: State, bus': State)
    requires ClientInv(client, bus) && Later(bus, bus')
    requires client.connection.Live? ==> SameReader(bus, bus', client.connection.target)
    ensures ClientInv(client, bus')
  {
    LaterKeepsWire(client, bus, bus');
    if client.base.Some? {
      var b, p := client.base.value, client.position;
      assert bus'.published[b..p] == bus.published[b..p];
    }
  }

  lemma BusMoveKeeps(s: System, step: Step)
    requires SystemInv(s) && Allowed(s, BusMove(step))
    ensures SystemInv(Moved(s, BusMove(step)))
  {
    NextKeepsInv(s.bus, step);
    StepLater(s.bus, step);
    LaterKeepsClient(s.client, s.bus, Next(s.bus, step));
  }

  lemma SubscribeKeeps(bus: State, t: nat)
    requires Inv(bus) && t !in bus.targets
    ensures Inv(Next(bus, Subscribe(t)))
    ensures var bus' := Next(bus, Subscribe(t));
            && bus'.published == bus.published && bus'.limits == bus.limits
            && t in bus'.targets && bus'.targets[t].start == |bus.published| && bus'.targets[t].sent == []
  {
    NextKeepsInv(bus, Subscribe(t));
  }

  lemma SnapshotKeeps(s: System, t: nat, items: seq<Summary>, m: Move)
    requires SystemInv(s) && t !in s.bus.targets
    requires (m == OpenFresh(t, items) || m == Resnapshot(t, items)) && Allowed(s, m)
    ensures SystemInv(Moved(s, m))
  {
    SubscribeKeeps(s.bus, t);
    var n := |s.bus.published|;
    assert s.bus.published[n..n] == [];
    assert [SnapshotFrame(s.bus, items)][1..] == Frames([]);
  }

  lemma ResumeKeeps(s: System, t: nat)
    requires SystemInv(s) && Allowed(s, Resume(t))
    ensures SystemInv(Moved(s, Resume(t)))
  {
    SubscribeKeeps(s.bus, t);
    var id := s.client.lastID.value;
    if FitStart(s.bus.published, s.bus.limits) < id <= |s.bus.published| {
      assert id == s.client.position;
      assert s.bus.published[id..] == s.bus.published[id..|s.bus.published|];
    }
  }

  /** The event in a forwarder's hands is the next one its reader is owed. */
  lemma HeldIsNext(bus: State, t: nat)
    requires Inv(bus) && Enabled(bus, HandOver(t))
    ensures var target := bus.targets[t]; var written := target.start + |target.sent|;
            && written < |bus.published|
            && bus.published[written] == target.forwarder.item
  {
    var target := bus.targets[t];
    assert Contiguous(bus.published, t in bus.registered, target);
    var owed := bus.published[target.start..];
    assert (target.sent + [target.forwarder.item] + target.queue)[|target.sent|] == target.forwarder.item;
    assert owed[|target.sent|] == target.forwarder.item;
  }

  lemma LongerWire(client: Client, bus: State, bus': State, item: Queued)
    requires client.connection.Live? && WireRight(client, bus)
    requires bus'.limits == bus.limits && bus'.published == bus.published
    requires var t := client.connection.target;
             && t in bus'.targets && bus'.targets[t].start == bus.targets[t].start
             && bus'.targets[t].sent == bus.targets[t].sent + [item]
             && bus.targets[t].start + |bus.targets[t].sent| < |bus.published|
             && bus.published[bus.targets[t].start + |bus.targets[t].sent|] == item
    ensures WireRight(client.(connection := Live(client.connection.target, client.connection.wire + [Event(item.envelope)])), bus')
  {
    var target := bus.targets[client.connection.target];
    var start, written := target.start, target.start + |target.sent|;
    var wire := client.connection.wire;
    NextFrame(bus.published, start, written);
    if wire != [] && wire[0].Snapshot? {
      assert (wire + [Event(item.envelope)])[1..] == wire[1..] + [Event(item.envelope)];
    } else {
      NextFrame(bus.published, client.position, written);
    }
  }

  lemma ForwardKeeps(s: System)
    requires SystemInv(s) && Allowed(s, Forward)
    ensures SystemInv(Moved(s, Forward))
  {
    var t := s.client.connection.target;
    NextKeepsInv(s.bus, HandOver(t));
    HeldIsNext(s.bus, t);
    LongerWire(s.client, s.bus, Next(s.bus, HandOver(t)), s.bus.targets[t].forwarder.item);
  }

  lemma NextFrame(published: seq<Queued>, from: nat, to: nat)
    requires from <= to < |published|
    ensures Frames(published[from..to + 1]) == Frames(published[from..to]) + [Event(published[to].envelope)]
    ensures published[from..to + 1] == published[from..to] + [published[to]]
  {
  }

  lemma FirstFrame(published: seq<Queued>, from: nat, to: nat)
    requires from < to <= |published|
    ensures Frames(published[from..to]) == [Event(published[from].envelope)] + Frames(published[from + 1..to])
  {
  }

  lemma ReadSnapshotKeeps(s: System)
    requires SystemInv(s) && Allowed(s, Receive) && s.client.connection.wire[0].Snapshot?
    ensures SystemInv(Moved(s, Receive))
  {
    var at := s.client.connection.wire[0].at;
    assert s.bus.published[at..at] == [];
    var wire' := s.client.connection.wire[1..];
    assert wire' != [] ==> wire'[0].Event?;
  }

  /** The next frame carries the event at the browser's position. */
  lemma NextEvent(client: Client, bus: State)
    requires ClientInv(client, bus) && Numbered(bus.published)
    requires client.connection.Live? && client.connection.wire != [] && client.connection.wire[0].Event?
    ensures client.base.Some? && client.base.value <= client.position < |bus.published|
    ensures client.connection.wire[0].envelope == bus.published[client.position].envelope
    ensures client.connection.wire[0].envelope.id == client.position + 1
    ensures var client' := Read(client, client.connection.wire[0]);
            WireRight(client'.(connection := Live(client.connection.target, client.connection.wire[1..])), bus)
  {
    var target := bus.targets[client.connection.target];
    var written := target.start + |target.sent|;
    hide Based, Visible, Folded, Reduce, LongestFit;
    assert client.position < written;
    FirstFrame(bus.published, client.position, written);
    assert client.connection.wire[1..] == Frames(bus.published[client.position + 1..written]);
  }

  lemma OneMore(state: StreamState, published: seq<Queued>, b: nat, p: nat)
    requires b <= p < |published|
    ensures Visible(published[b..p + 1])
         == Visible(published[b..p]) + (if PassesGuard(published[p].envelope) then [published[p].envelope] else [])
    ensures Folded(state, published[b..p + 1]) == Dispatch(Folded(state, published[b..p]), published[p].envelope)
  {
    assert published[b..p + 1][..p - b] == published[b..p];
  }

  /** Reading the event at the position extends the fold by that event. */
  lemma ReadExtendsFold(client: Client, published: seq<Queued>)
    requires client.base.Some? && Synced(client, published) && CursorBehind(client)
    requires client.position < |published| && published[client.position].envelope.id == client.position + 1
    ensures Synced(Read(client, Event(published[client.position].envelope)), published)
    ensures CursorBehind(Read(client, Event(published[client.position].envelope)))
  {
    hide Visible, Folded;
    OneMore(client.snapshot, published, client.base.value, client.position);
  }

  lemma ReadEventKeeps(s: System)
    requires SystemInv(s) && Allowed(s, Receive) && s.client.connection.wire[0].Event?
    ensures SystemInv(Moved(s, Receive))
  {
    NextEvent(s.client, s.bus);
    ReadExtendsFold(s.client, s.bus.published);
  }

  lemma MoveKeepsInv(s: System, m: Move)
    requires SystemInv(s) && Allowed(s, m)
    ensures SystemInv(Moved(s, m))
  {
    match m
    case BusMove(step) => BusMoveKeeps(s, step);
    case OpenFresh(t, items) => SnapshotKeeps(s, t, items, m);
    case Resnapshot(t, items) => SnapshotKeeps(s, t, items, m);
    case Resume(t) => ResumeKeeps(s, t);
    case Forward => ForwardKeeps(s);
    case Receive =>
      if s.client.connection.wire[0].Snapshot? { ReadSnapshotKeeps(s); } else { ReadEventKeeps(s); }
    case Drop =>
  }

  ghost predicate IsHistory(s: System, moves: seq<Move>, end: System)
    decreases |moves|
  {
    if moves == [] then end == s
    else Allowed(s, moves[0]) && IsHistory(Moved(s, moves[0]), moves[1..], end)
  }

  function Empty(): StreamState {
    StreamState(None, [], None, false)
  }

  function Started(limits: Limits): System {
    System(Fresh(limits), Client(None, Empty(), Offline, None, [], Empty(), 0, []))
  }

  lemma {:induction false} HistoryKeepsInv(s: System, moves: seq<Move>, end: System)
    requires SystemInv(s) && IsHistory(s, moves, end)
    ensures SystemInv(end)
    decreases |moves|
  {
    if moves != [] {
      MoveKeepsInv(s, moves[0]);
      HistoryKeepsInv(Moved(s, moves[0]), moves[1..], end);
    }
  }

  /**
    Over any run of publishes, cut-offs, dropped connections, resumptions and
    resyncs, the events the browser applied since its latest snapshot are
    exactly the visible ones published since that snapshot's position, in
    order and each once, and its state is the plain fold over them.
   */
  lemma ExactlyOnce(limits: Limits, moves: seq<Move>, end: System)
    requires Normal(limits) && IsHistory(Started(limits), moves, end) && end.client.base.Some?
    ensures end.client.base.value <= end.client.position <= |end.bus.published|
    ensures var since := end.bus.published[end.client.base.value..end.client.position];
            && end.client.applied == Visible(since)
            && end.client.stream == Folded(end.client.snapshot, since)
  {
    assert SystemInv(Started(limits));
    HistoryKeepsInv(Started(limits), moves, end);
  }

  // ------------------------------------------------------------------
  // What the browser shows
  // ------------------------------------------------------------------

  /** The exchanges that visible evicted and deleted events name. */
  ghost function Named(qs: seq<Queued>): set<ID> {
    set q | q in qs && q.envelope.revision != 0 && Removal(q.envelope) && q.envelope.exchange.Some? ::
      q.envelope.exchange.value
  }

  ghost predicate HasClear(qs: seq<Queued>) {
    exists q :: q in qs && q.envelope.kind.HistoryCleared? && q.envelope.revision != 0
  }

  /** The last event with a revision. */
  function LastVisible(qs: seq<Queued>): Option<Envelope> {
    if qs == [] then None
    else
      var e := qs[|qs| - 1].envelope;
      if e.revision != 0 then Some(e) else LastVisible(qs[..|qs| - 1])
  }

  /** `state` holds what `first` becomes once the events `qs` have come. */
  ghost predicate Shows(state: StreamState, first: StreamState, qs: seq<Queued>) {
    && (if HasClear(qs) then state.items == [] else KeptInOrder(state.items, first.items, Named(qs)))
    && (match LastVisible(qs)
        case None => state.cursor == first.cursor && state.latest == first.latest
        case Some(e) => state.cursor == Some(e.id) && state.latest == Some(e))
  }

  lemma NamedMore(qs: seq<Queued>, q: Queued)
    ensures Named(qs + [q])
         == Named(qs) + if q.envelope.revision != 0 && Removal(q.envelope) && q.envelope.exchange.Some?
                        then {q.envelope.exchange.value} else {}
    ensures HasClear(qs + [q]) <==> HasClear(qs) || (q.envelope.kind.HistoryCleared? && q.envelope.revision != 0)
    ensures LastVisible(qs + [q]) == if q.envelope.revision != 0 then Some(q.envelope) else LastVisible(qs)
  {
    var all := qs + [q];
    assert all[..|qs|] == qs;
    assert forall x :: x in all <==> x in qs || x == q;
    if HasClear(qs) {
      var x :| x in qs && x.envelope.kind.HistoryCleared? && x.envelope.revision != 0;
      assert x in all;
    }
    assert q in all;
  }

  lemma ShowsMore(state: StreamState, first: StreamState, qs: seq<Queued>, q: Queued)
    requires Shows(state, first, qs) && (state.cursor.Some? ==> state.cursor.value < q.envelope.id)
    ensures Shows(Dispatch(state, q.envelope), first, qs + [q])
  {
    NamedMore(qs, q);
    ReducesExactly(state, q.envelope);
    var after := Dispatch(state, q.envelope);
    hide Reduce, HasClear, Named, LastVisible;
    if q.envelope.revision == 0 {
      assert after == state;
      assert Named(qs) + {} == Named(qs);
    } else if Removal(q.envelope) {
      var gone := if q.envelope.exchange.Some? then {q.envelope.exchange.value} else {};
      if HasClear(qs) {
        assert after.items == [];
      } else {
        KeptAgain(after.items, state.items, first.items, Named(qs), gone);
      }
    } else {
      assert Named(qs) + {} == Named(qs);
    }
  }

  lemma {:induction false} FoldShows(first: StreamState, published: seq<Queued>, b: nat, p: nat)
    requires b <= p <= |published| && Numbered(published)
    requires first.cursor.Some? ==> first.cursor.value <= b
    ensures Shows(Folded(first, published[b..p]), first, published[b..p])
    ensures var cursor := Folded(first, published[b..p]).cursor; cursor.Some? ==> cursor.value <= p
    decreases p
  {
    if b == p {
      assert published[b..p] == [];
      AllKept(first.items);
      assert Named([]) == {};
    } else {
      FoldShows(first, published, b, p - 1);
      OneMore(first, published, b, p - 1);
      assert published[b..p] == published[b..p - 1] + [published[p - 1]];
      var state, q := Folded(first, published[b..p - 1]), published[p - 1];
      ShowsMore(state, first, published[b..p - 1], q);
      ReducesExactly(state, q.envelope);
    }
  }

  /** The lists of the snapshots a run asks for. */
  ghost function Asked(moves: seq<Move>): set<seq<Summary>> {
    set m | m in moves && (m.OpenFresh? || m.Resnapshot?) :: m.items
  }

  /** Every list that is shown or on its way is one of these. */
  ghost predicate ListsFrom(s: System, lists: set<seq<Summary>>) {
    && (s.client.base.Some? ==> s.client.listed in lists)
    && (s.client.connection.Live? ==>
          forall f :: f in s.client.connection.wire && f.Snapshot? ==> f.items in lists)
  }

  lemma MoveListsFrom(s: System, m: Move, lists: set<seq<Summary>>)
    requires ListsFrom(s, lists) && Allowed(s, m)
    ensures ListsFrom(Moved(s, m), lists + if m.OpenFresh? || m.Resnapshot? then {m.items} else {})
  {
  }

  lemma {:induction false} RunListsFrom(s: System, moves: seq<Move>, end: System, lists: set<seq<Summary>>)
    requires ListsFrom(s, lists) && IsHistory(s, moves, end)
    ensures ListsFrom(end, lists + Asked(moves))
    decreases |moves|
  {
    if moves != [] {
      var m := moves[0];
      var grown := lists + if m.OpenFresh? || m.Resnapshot? then {m.items} else {};
      MoveListsFrom(s, m, lists);
      RunListsFrom(Moved(s, m), moves[1..], end, grown);
      assert moves == [m] + moves[1..];
      assert grown + Asked(moves[1..]) == lists + Asked(moves);
    }
  }

  /**
    What the browser shows over any run: the exchanges of the latest snapshot,
    each id once with its first summary, in order, but for those that an evicted
    or deleted event with a revision has named since, or nothing once a clear with
    a revision has come. Its cursor and latest event are the last with a revision.
   */
  lemma ShowsWhatIsLeft(limits: Limits, moves: seq<Move>, end: System)
    requires Normal(limits) && IsHistory(Started(limits), moves, end) && end.client.base.Some?
    ensures end.client.base.value <= end.client.position <= |end.bus.published|
    ensures end.client.listed in Asked(moves) && KeepsFirst(end.client.snapshot.items, end.client.listed)
    ensures var since := end.bus.published[end.client.base.value..end.client.position];
            Shows(end.client.stream, end.client.snapshot, since)
  {
    ExactlyOnce(limits, moves, end);
    HistoryKeepsInv(Started(limits), moves, end);
    FoldShows(end.client.snapshot, end.bus.published, end.client.base.value, end.client.position);
    UniqueKeepsFirst(end.client.listed);
    RunListsFrom(Started(limits), moves, end, {});
  }

  /** A live connection with nothing left in flight has brought the browser fully up to date. */
  lemma NothingInFlightMeansCaughtUp(limits: Limits, moves: seq<Move>, end: System)
    requires Normal(limits) && IsHistory(Started(limits), moves, end)
    requires end.client.connection.Live? && end.client.connection.wire == []
    requires end.client.connection.target in end.bus.registered * end.bus.targets.Keys
    requires var target := end.bus.targets[end.client.connection.target];
             target.queue == [] && !target.forwarder.Holding?
    ensures end.client.base.Some? && end.client.position == |end.bus.published|
  {
    assert SystemInv(Started(limits));
    HistoryKeepsInv(Started(limits), moves, end);
    var t := end.client.connection.target;
    assert Contiguous(end.bus.published, true, end.bus.targets[t]);
  }

  /** Delivering again anything at or below the cursor changes nothing. */
  lemma {:induction false} RedeliveryIsHarmless(state: StreamState, again: seq<Queued>)
    requires forall q :: q in again ==> Stale(state, q.envelope)
    ensures Folded(state, again) == state
  {
    if again != [] {
      var n := |again| - 1;
      RedeliveryIsHarmless(state, again[..n]);
      assert again[n] in again;
    }
  }

  /**
    Clearing history is published without a revision, so no browser ever
    applies it: the reducer's branch for it is unreachable.
   */
  lemma {:induction false} ClearedIsNeverApplied(state: StreamState, qs: seq<Queued>)
    requires forall q :: q in qs && q.envelope.kind.HistoryCleared? ==> q.envelope.revision == 0
    ensures forall e :: e in Visible(qs) ==> !e.kind.HistoryCleared?
    ensures qs != [] && qs[|qs| - 1].envelope.kind.HistoryCleared? ==> Folded(state, qs) == Folded(state, qs[..|qs| - 1])
  {
    if qs != [] {
      var n := |qs| - 1;
      assert qs[n] in qs;
      ClearedIsNeverApplied(state, qs[..n]);
    }
  }
}
