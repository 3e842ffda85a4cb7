/** The traffic pipeline (internal/capture/pipeline.go) and the UDP intake (internal/app/app.go). */
module Intake {
  import opened Common
  import opened Capture
  import opened RunProtocol

  /** reservationBytes: a running total that sticks at the largest int64. */
  function ReservationBytes(total: int, value: int): int {
    if value <= 0 then total
    else if total > MAX64 - value then MAX64
    else total + value
  }

  ghost function Positive(x: int): (n: nat)
    ensures n == x || (x < 0 && n == 0)
  {
    if x <= 0 then 0 else x
  }

  ghost function Total(sizes: seq<int>): nat {
    if sizes == [] then 0 else Total(sizes[..|sizes| - 1]) + Positive(sizes[|sizes| - 1])
  }

  ghost function Folded(sizes: seq<int>): int {
    if sizes == [] then 0 else ReservationBytes(Folded(sizes[..|sizes| - 1]), sizes[|sizes| - 1])
  }

  /** The reserved size is the mathematical sum of the positive limits, capped at the largest int64. */
  lemma {:induction false} ReservationIsCappedSum(sizes: seq<int>)
    requires forall i :: 0 <= i < |sizes| ==> sizes[i] <= MAX64
    ensures Folded(sizes) == if Total(sizes) <= MAX64 then Total(sizes) else MAX64
  {
    if sizes != [] {
      ReservationIsCappedSum(sizes[..|sizes| - 1]);
    }
  }

  /** A capped reservation leaves room for the writer's byte capacity exactly when the limits themselves do. */
  lemma ModestExactly(sizes: seq<int>, queueBytes: int)
    requires 1 <= queueBytes <= MAX64
    requires forall i :: 0 <= i < |sizes| ==> sizes[i] <= MAX64
    ensures Folded(sizes) <= MAX64 - queueBytes <==> Total(sizes) <= MAX64 - queueBytes
  {
    ReservationIsCappedSum(sizes);
  }

  datatype Snapshot = Snapshot(
    proxy: bool,
    concurrentExchanges: int,
    requestBodyBytes: int,
    requestHeaderBytes: int,
    responseBodyBytes: int,
    responseHeaderBytes: int,
    hasHandler: bool)

  ghost function Sizes(s: Snapshot): seq<int> {
    [s.requestBodyBytes, s.requestHeaderBytes] + if s.proxy then [s.responseBodyBytes, s.responseHeaderBytes] else []
  }

  /** Both request limits count, the response limits in proxy mode only, and no negative one. */
  lemma SizesExactly(s: Snapshot)
    ensures var request := Positive(s.requestBodyBytes) + Positive(s.requestHeaderBytes);
            var response := Positive(s.responseBodyBytes) + Positive(s.responseHeaderBytes);
            Total(Sizes(s)) == if s.proxy then request + response else request
  {
    var sizes := Sizes(s);
    assert Total([]) == 0;
    assert sizes[..1][..0] == [] && sizes[..2][..1] == sizes[..1] && sizes[..|sizes|] == sizes;
    assert Total(sizes[..2]) == Positive(s.requestBodyBytes) + Positive(s.requestHeaderBytes);
    if s.proxy {
      assert sizes[..3][..2] == sizes[..2] && sizes[..4][..3] == sizes[..3];
      assert Total(sizes[..4]) == Total(sizes[..3]) + Positive(s.responseHeaderBytes);
    }
  }

  lemma OneMoreSize(sizes: seq<int>, i: nat)
    requires i < |sizes|
    ensures Folded(sizes[..i + 1]) == ReservationBytes(Folded(sizes[..i]), sizes[i])
  {
    assert sizes[..i + 1][..i] == sizes[..i];
  }

  /** What the store answers a reservation with: it does not reserve at all, it refuses, or it grants. */
  datatype Admission = Unmanaged | Refused | Granted

  datatype Body = Whole(bytes: Bytes) | TooLarge(bytes: Bytes) | Broken(bytes: Bytes)

  /** What the mode handler does and how the answer is delivered; `captured` is the recorded response. */
  datatype Handled =
    | Answered(captured: Option<Bytes>, upstream: bool, delivered: bool)
    | Failure(captured: Option<Bytes>, cancelled: bool, errorBody: Bytes)

  /** Everything one request meets from outside: clock readings, ids, the network, the store. */
  datatype Input = Input(
    admission: Admission,
    id: Option<ID>,
    started: int,
    ended: int,
    headersTooLarge: bool,
    body: Body,
    handled: Handled,
    commitAccepted: bool)

  datatype Reply =
    | CapacityExhausted
    | PersistenceExhausted
    | IdFailed
    | Rejected
    | ModeUnavailable
    | ModeFailed
    | Delivered
    | NotDelivered

  /** The state and failure a request ends with, as the handler sees it. */
  ghost function Ending(s: Snapshot, input: Input): State {
    if input.headersTooLarge || !input.body.Whole? || !s.hasHandler then Failed
    else if input.handled.Failure? then (if input.handled.cancelled then Cancelled else Failed)
    else if input.handled.delivered then Completed
    else Failed
  }

  /** How a request that has started an exchange is answered. */
  ghost function Answer(s: Snapshot, input: Input): Reply {
    if input.headersTooLarge || !input.body.Whole? then Rejected
    else if !s.hasHandler then ModeUnavailable
    else if input.handled.Failure? then ModeFailed
    else if input.handled.delivered then Delivered
    else NotDelivered
  }

  /** How a request ends and how it is answered, each outcome with what it takes. */
  lemma EndingsExactly(s: Snapshot, input: Input)
    ensures Ending(s, input) == Completed <==> Handed(s, input) && input.handled.Answered? && input.handled.delivered
    ensures Ending(s, input) == Cancelled <==> Handed(s, input) && input.handled.Failure? && input.handled.cancelled
    ensures Ending(s, input) == Failed <==> Ending(s, input) != Completed && Ending(s, input) != Cancelled
    ensures Answer(s, input).Delivered? <==> Ending(s, input) == Completed
    ensures Answer(s, input).Rejected? <==> input.headersTooLarge || !input.body.Whole?
    ensures Answer(s, input).ModeUnavailable? <==> !input.headersTooLarge && input.body.Whole? && !s.hasHandler
    ensures Answer(s, input).ModeFailed? <==> Handed(s, input) && input.handled.Failure?
    ensures Answer(s, input).NotDelivered? <==> Handed(s, input) && input.handled.Answered? && !input.handled.delivered
  {
  }

  function Transitioned(x: Exchange, next: State, at: int): Option<Exchange> {
    if ValidTransition(x.state, next) then Some(Moved(x, next, at)) else None
  }

  /** Every record saved after the first one carries this request body. */
  ghost predicate AllCarry(effects: seq<Effect>, body: Bytes) {
    forall e :: e in effects && e.Saved? && e.x.revision > 1 ==> e.x.requestBody == body
  }

  /** The revisions that have been published. */
  ghost function Announced(effects: seq<Effect>): set<nat> {
    set e | e in effects && e.Published? :: e.revision
  }

  /** The answer of an upstream was recorded. */
  ghost predicate FromUpstream(s: Snapshot, input: Input) {
    Handed(s, input) && s.proxy && input.handled.Answered? && input.handled.captured.Some? && input.handled.upstream
  }

  /**
    What is published of a request: that it has started, that it has been read
    or has failed, an upstream's response, and a failure. That a request has
    been forwarded or has completed is only saved.
   */
  ghost predicate Tells(announced: set<nat>, s: Snapshot, input: Input) {
    forall r :: r in announced
       <==> || r == 1 || r == 2
            || (FromUpstream(s, input) && r == 4)
            || (Ending(s, input) != Completed && r == LastRevision(s, input))
  }

  /** The store, the bus and the reservation, as far as one run uses them. */
  class Journal {
    ghost var effects: seq<Effect>
    ghost var first: Phase
    ghost var phase: Phase

    ghost predicate Valid()
      reads this
    {
      Play(first, effects) == Some(phase)
    }

    constructor (held: bool)
      ensures Valid() && phase == first == Begin(held) && effects == []
      ensures Commits(effects) == [] && Announced(effects) == {}
    {
      effects, first, phase := [], Begin(held), Begin(held);
    }

    ghost method Note(e: Effect)
      requires Valid() && Accepts(phase, e)
      modifies this`effects, this`phase
      ensures Valid() && phase == After(old(phase), e) && effects == old(effects) + [e]
      ensures Commits(effects) == old(Commits(effects)) + if e.Committed? then [e.x] else []
      ensures Announced(effects) == old(Announced(effects)) + if e.Published? then {e.revision} else {}
    {
      assert (effects + [e])[..|effects|] == effects;
      effects := effects + [e];
      phase := After(phase, e);
    }

    method Save(x: Exchange)
      requires Valid() && Accepts(phase, Saved(x))
      modifies this`effects, this`phase
      ensures Valid() && phase == After(old(phase), Saved(x))
      ensures effects == old(effects) + [Saved(x)] && Commits(effects) == old(Commits(effects))
      ensures Announced(effects) == old(Announced(effects))
      ensures forall body :: AllCarry(old(effects), body) && (x.revision > 1 ==> x.requestBody == body) ==>
                AllCarry(effects, body)
    {
      Note(Saved(x));
    }

    method Publish(x: Exchange)
      requires Valid() && Accepts(phase, Published(x.id, x.revision))
      modifies this`effects, this`phase
      ensures Valid() && phase == After(old(phase), Published(x.id, x.revision))
      ensures effects == old(effects) + [Published(x.id, x.revision)] && Commits(effects) == old(Commits(effects))
      ensures Announced(effects) == old(Announced(effects)) + {x.revision}
      ensures forall body :: AllCarry(old(effects), body) ==> AllCarry(effects, body)
    {
      Note(Published(x.id, x.revision));
    }

    method Commit(x: Exchange, accepted: bool)
      requires Valid() && Accepts(phase, Committed(x, accepted))
      modifies this`effects, this`phase
      ensures Valid() && phase == After(old(phase), Committed(x, accepted))
      ensures effects == old(effects) + [Committed(x, accepted)] && Commits(effects) == old(Commits(effects)) + [x]
      ensures Announced(effects) == old(Announced(effects))
    {
      Note(Committed(x, accepted));
    }

    /** Cancel does nothing once the reservation is resolved. */
    method Cancel(held: bool)
      requires Valid() && (held <==> !phase.reservation.NotHeld?)
      requires phase.reservation.Held? ==> phase.saved.None?
      modifies this`effects, this`phase
      ensures Valid() && phase == old(phase).(reservation := if held then Resolved else NotHeld)
      ensures effects == old(effects) + if old(phase.reservation.Held?) then [Abandoned] else []
      ensures Commits(effects) == old(Commits(effects)) && Announced(effects) == old(Announced(effects))
      ensures forall body :: AllCarry(old(effects), body) ==> AllCarry(effects, body)
    {
      if held && phase.reservation.Held? {
        Note(Abandoned);
      }
    }
  }
  /** A limit below one counts as one. */
  ghost function Limit(s: Snapshot): nat {
    if s.concurrentExchanges < 1 then 1 else s.concurrentExchanges
  }

  /** Nothing is read of a request whose headers are too large; of any other what could be read is kept. */
  ghost function Received(input: Input): Bytes {
    if input.headersTooLarge then [] else input.body.bytes
  }

  /** The request got as far as the mode handler. */
  ghost predicate Handed(s: Snapshot, input: Input) {
    !input.headersTooLarge && input.body.Whole? && s.hasHandler
  }

  /** What a record that is complete holds of the request and its answer. */
  ghost predicate Holds(x: Exchange, s: Snapshot, input: Input) {
    && x.requestBody == Received(input) && x.datagram.None? && x.monotonic.None?
    && (!Handed(s, input) ==> x.response.None?)
    && (Handed(s, input) && input.handled.Answered? ==> x.response == input.handled.captured)
    && (Handed(s, input) && input.handled.Failure? ==>
          x.response == if s.proxy && !input.handled.cancelled then Some(input.handled.errorBody) else input.handled.captured)
  }

  lemma PersistenceAside(x: Exchange, p: Persistence, s: Snapshot, input: Input)
    ensures Holds(x.(persistence := p), s, input) <==> Holds(x, s, input)
    ensures Holds(x, s, input) ==> x.requestBody == Received(input)
  {
  }

  /** One revision for the start and one for the end, one each for a whole body, for forwarding and for an upstream response. */
  ghost function LastRevision(s: Snapshot, input: Input): nat {
    2 + (if input.headersTooLarge || !input.body.Whole? then 0
         else 1 + (if s.proxy then 1 else 0)
              + (if s.proxy && s.hasHandler && input.handled.Answered? && input.handled.captured.Some? && input.handled.upstream
                 then 1 else 0))
  }

  /** The final record of a request. */
  ghost predicate Recorded(x: Exchange, s: Snapshot, input: Input, held: bool) {
    && Some(x.id) == input.id && x.transport.HTTP?
    && x.started == input.started && x.completed == Some(input.ended)
    && x.state == Ending(s, input) && Holds(x, s, input) && x.revision == LastRevision(s, input)
    && x.persistence == if !held then Persistence.Unmanaged else if input.commitAccepted then Queued else Unpersisted
  }

  class Pipeline {
    var inFlight: nat
    var admissionRejected: nat
    var bodyTooLarge: nat

    constructor ()
      ensures inFlight == admissionRejected == bodyTooLarge == 0
    {
      inFlight, admissionRejected, bodyTooLarge := 0, 0, 0;
    }

    method Admit(limit: int) returns (admitted: bool)
      modifies this`inFlight, this`admissionRejected
      ensures admitted <==> old(inFlight) < (if limit < 1 then 1 else limit)
      ensures inFlight == old(inFlight) + if admitted then 1 else 0
      ensures admissionRejected == old(admissionRejected) + if admitted then 0 else 1
    {
      var most := if limit < 1 then 1 else limit;
      if inFlight >= most {
        admissionRejected := admissionRejected + 1;
        return false;
      }
      inFlight := inFlight + 1;
      return true;
    }

    method Release()
      requires inFlight >= 1
      modifies this`inFlight
      ensures inFlight == old(inFlight) - 1
    {
      inFlight := inFlight - 1;
    }

    /** The size a request asks the writer to reserve. */
    method ReservationSize(s: Snapshot) returns (bytes: int)
      ensures bytes == Folded(Sizes(s))
      ensures var sum := Positive(s.requestBodyBytes) + Positive(s.requestHeaderBytes)
                         + if s.proxy then Positive(s.responseBodyBytes) + Positive(s.responseHeaderBytes) else 0;
              (forall size :: size in Sizes(s) ==> size <= MAX64) ==> bytes == if sum <= MAX64 then sum else MAX64
    {
      ghost var sizes := Sizes(s);
      bytes := ReservationBytes(0, s.requestBodyBytes);
      OneMoreSize(sizes, 0);
      bytes := ReservationBytes(bytes, s.requestHeaderBytes);
      OneMoreSize(sizes, 1);
      if s.proxy {
        bytes := ReservationBytes(bytes, s.responseBodyBytes);
        OneMoreSize(sizes, 2);
        bytes := ReservationBytes(bytes, s.responseHeaderBytes);
        OneMoreSize(sizes, 3);
      }
      assert sizes[..|sizes|] == sizes;
      SizesExactly(s);
      if forall size :: size in sizes ==> size <= MAX64 {
        assert forall i :: 0 <= i < |sizes| ==> sizes[i] in sizes;
        ReservationIsCappedSum(sizes);
      }
    }

    /** The failure path; the source's fallback for a refused transition is never taken. */
    method Fail(journal: Journal, x: Exchange, state: State, at: int) returns (y: Exchange)
      requires journal.Valid() && journal.phase.saved.Some? && journal.phase.published <= x.revision
      requires ValidTransition(x.state, state) && IsTerminal(state) && x.completed.None?
      requires Succeeds(journal.phase.saved.value, Moved(x, state, at))
      modifies journal`effects, journal`phase
      ensures journal.Valid() && y == Moved(x, state, at)
      ensures journal.phase == old(journal.phase).(saved := Some(y), published := y.revision)
      ensures Commits(journal.effects) == old(Commits(journal.effects))
      ensures Announced(journal.effects) == old(Announced(journal.effects)) + {y.revision}
      ensures AllCarry(old(journal.effects), y.requestBody) ==> AllCarry(journal.effects, y.requestBody)
    {
      var moved := Transitioned(x, state, at);
      y := moved.value;
      journal.Save(y);
      journal.Publish(y);
    }

    method Start(journal: Journal, id: ID, at: int) returns (x: Exchange)
      requires journal.Valid() && journal.phase.saved.None? && journal.phase.published == 0 && !journal.phase.reservation.Resolved?
      modifies journal`effects, journal`phase
      ensures journal.Valid()
      ensures x == Exchange(id, HTTP, Receiving, 1, at, None, None, [], None, None, Persistence.Unmanaged)
      ensures journal.phase == old(journal.phase).(saved := Some(x), published := 1)
      ensures journal.effects == old(journal.effects) + [Saved(x), Published(id, 1)]
      ensures Commits(journal.effects) == old(Commits(journal.effects))
      ensures Announced(journal.effects) == old(Announced(journal.effects)) + {1}
    {
      x := Exchange(id, HTTP, Receiving, 1, at, None, None, [], None, None, Persistence.Unmanaged);
      journal.Save(x);
      journal.Publish(x);
    }

    /** From the recorded request on: forward it or not, run the mode handler, and answer. */
    method Respond(journal: Journal, received: Exchange, s: Snapshot, input: Input) returns (x: Exchange, reply: Reply)
      requires journal.Valid() && journal.phase.saved == Some(received) && journal.phase.published == received.revision
      requires received.state.Receiving? && received.completed.None?
      requires !input.headersTooLarge && input.body.Whole?
      requires received.revision == 2 && received.requestBody == input.body.bytes && received.response.None?
      requires received.datagram.None? && received.monotonic.None? && AllCarry(journal.effects, input.body.bytes)
      requires Announced(journal.effects) == {1, 2}
      modifies journal`effects, journal`phase
      ensures journal.Valid() && journal.phase.saved == Some(x)
      ensures journal.phase.reservation == old(journal.phase.reservation)
      ensures Holds(x, s, input) && x.revision == LastRevision(s, input)
      ensures AllCarry(journal.effects, input.body.bytes) && Commits(journal.effects) == old(Commits(journal.effects))
      ensures Tells(Announced(journal.effects), s, input)
      ensures x.id == received.id && x.started == received.started && x.transport == received.transport
      ensures x.state == Ending(s, input) && x.completed == Some(input.ended)
      ensures x.persistence == received.persistence && reply == Answer(s, input)
    {
      hide Play, Commits, AllCarry, Announced;
      x := received;
      if s.proxy {
        var moved := Transitioned(x, Forwarding, input.ended);
        x := moved.value;
        journal.Save(x);
      }
      if !s.hasHandler {
        x := Fail(journal, x, Failed, input.ended);
        return x, ModeUnavailable;
      }
      x := x.(response := input.handled.captured);
      if input.handled.Failure? {
        if s.proxy && !input.handled.cancelled {
          x := x.(response := Some(input.handled.errorBody));
        }
        x := Fail(journal, x, if input.handled.cancelled then Cancelled else Failed, input.ended);
        return x, ModeFailed;
      }
      if s.proxy && x.response.Some? && input.handled.upstream {
        x := x.(revision := x.revision + 1);
        journal.Save(x);
        journal.Publish(x);
      }
      if !input.handled.delivered {
        x := Fail(journal, x, Failed, input.ended);
        return x, NotDelivered;
      }
      var moved := Transitioned(x, Completed, input.ended);
      x := moved.value;
      journal.Save(x);
      return x, Delivered;
    }

    /** Everything between the first and the terminal record. */
    method Process(journal: Journal, started: Exchange, s: Snapshot, input: Input) returns (x: Exchange, reply: Reply)
      requires journal.Valid() && journal.phase.saved == Some(started) && journal.phase.published == started.revision
      requires started.state.Receiving? && started.completed.None?
      requires started.revision == 1 && started.requestBody == [] && started.response.None?
      requires started.datagram.None? && started.monotonic.None? && AllCarry(journal.effects, Received(input))
      requires Announced(journal.effects) == {1}
      modifies this`bodyTooLarge, journal`effects, journal`phase
      ensures journal.Valid() && journal.phase.saved == Some(x)
      ensures journal.phase.reservation == old(journal.phase.reservation)
      ensures Holds(x, s, input) && x.revision == LastRevision(s, input)
      ensures AllCarry(journal.effects, Received(input)) && Commits(journal.effects) == old(Commits(journal.effects))
      ensures Tells(Announced(journal.effects), s, input)
      ensures x.id == started.id && x.started == started.started && x.transport == started.transport
      ensures x.state == Ending(s, input) && x.completed == Some(input.ended)
      ensures x.persistence == started.persistence && reply == Answer(s, input)
      ensures bodyTooLarge == old(bodyTooLarge) + if !input.headersTooLarge && input.body.TooLarge? then 1 else 0
    {
      hide Play, Commits, AllCarry, Announced;
      x := started;
      if input.headersTooLarge {
        x := Fail(journal, x, Failed, input.ended);
        return x, Rejected;
      }
      x := x.(requestBody := input.body.bytes);
      if !input.body.Whole? {
        if input.body.TooLarge? {
          bodyTooLarge := bodyTooLarge + 1;
        }
        x := Fail(journal, x, Failed, input.ended);
        return x, Rejected;
      }
      x := x.(revision := x.revision + 1);
      journal.Save(x);
      journal.Publish(x);
      x, reply := Respond(journal, x, s, input);
    }

    /** The deferred commit: the terminal record is queued, saved so, and handed to the writer. */
    method Persist(journal: Journal, x: Exchange, accepted: bool)
      requires journal.Valid() && journal.phase.saved == Some(x) && IsTerminal(x.state) && journal.phase.reservation.Held?
      modifies journal`effects, journal`phase
      ensures journal.Valid() && journal.phase.reservation.Resolved? && journal.phase.published == old(journal.phase.published)
      ensures journal.phase.saved == Some(x.(persistence := if accepted then Queued else Unpersisted))
      ensures Commits(journal.effects) == old(Commits(journal.effects)) + [x.(persistence := Queued)]
      ensures Announced(journal.effects) == old(Announced(journal.effects))
      ensures AllCarry(old(journal.effects), x.requestBody) ==> AllCarry(journal.effects, x.requestBody)
    {
      var queued := x.(persistence := Queued);
      journal.Save(queued);
      journal.Commit(queued, accepted);
      if !accepted {
        journal.Save(queued.(persistence := Unpersisted));
      }
    }

    /** A request that holds its admission slot and, when `held`, a reservation. */
    method Record(journal: Journal, held: bool, s: Snapshot, input: Input) returns (reply: Reply)
      requires journal.Valid() && journal.phase == Begin(held) && journal.effects == []
      modifies this`bodyTooLarge, journal`effects, journal`phase
      ensures journal.Valid() && Finished(journal.phase)
      ensures reply == if input.id.None? then IdFailed else Answer(s, input)
      ensures journal.phase.saved.Some? <==> input.id.Some?
      ensures input.id.None? ==> journal.effects == if held then [Abandoned] else []
      ensures input.id.Some? ==> Recorded(journal.phase.saved.value, s, input, held)
      ensures AllCarry(journal.effects, Received(input))
      ensures journal.phase.reservation == if held then Resolved else NotHeld
      ensures if input.id.Some? then Tells(Announced(journal.effects), s, input) else Announced(journal.effects) == {}
      ensures Commits(journal.effects)
           == if held && input.id.Some? then [journal.phase.saved.value.(persistence := Queued)] else []
    {
      hide Tells, Holds, LastRevision, Answer, Play;
      if input.id.None? {
        journal.Cancel(held);
        return IdFailed;
      }
      var x := Start(journal, input.id.value, input.started);
      x, reply := Process(journal, x, s, input);
      PersistenceAside(x, if input.commitAccepted then Queued else Unpersisted, s, input);
      if held && IsTerminal(x.state) {
        Persist(journal, x, input.commitAccepted);
      }
      journal.Cancel(held);
    }

    /** One request. */
    method ServeHTTP(s: Snapshot, input: Input) returns (reply: Reply, journal: Journal)
      modifies this
      ensures fresh(journal) && journal.Valid() && Finished(journal.phase)
      ensures inFlight == old(inFlight)
      ensures reply == if old(inFlight) >= Limit(s) then CapacityExhausted
                       else if input.admission.Refused? then PersistenceExhausted
                       else if input.id.None? then IdFailed
                       else Answer(s, input)
      ensures admissionRejected == old(admissionRejected) + if reply.CapacityExhausted? || reply.PersistenceExhausted? then 1 else 0
      ensures journal.first == Begin(!reply.CapacityExhausted? && input.admission.Granted?)
      ensures journal.phase.saved.Some? <==> !reply.CapacityExhausted? && !reply.PersistenceExhausted? && !reply.IdFailed?
      ensures journal.phase.saved.None? ==>
                journal.effects == if reply.IdFailed? && input.admission.Granted? then [Abandoned] else []
      ensures journal.phase.saved.Some? ==> Recorded(journal.phase.saved.value, s, input, input.admission.Granted?)
      ensures AllCarry(journal.effects, Received(input))
      ensures journal.phase.reservation == if !reply.CapacityExhausted? && input.admission.Granted? then Resolved else NotHeld
      ensures if journal.phase.saved.Some? then Tells(Announced(journal.effects), s, input) else Announced(journal.effects) == {}
      ensures Commits(journal.effects)
           == if journal.phase.saved.Some? && input.admission.Granted?
              then [journal.phase.saved.value.(persistence := Queued)] else []
    {
      var admitted := Admit(s.concurrentExchanges);
      if !admitted {
        journal := new Journal(false);
        return CapacityExhausted, journal;
      }
      var bytes := ReservationSize(s);
      if input.admission.Refused? {
        admissionRejected := admissionRejected + 1;
        journal := new Journal(false);
        Release();
        return PersistenceExhausted, journal;
      }
      journal := new Journal(input.admission.Granted?);
      reply := Record(journal, input.admission.Granted?, s, input);
      Release();
    }
  }

  /**
    One UDP datagram: a single terminal record, saved, handed to the writer and
    announced. `now` and `reading` are the wall-clock and the monotonic part of
    its time.
   */
  class UdpIntake {
    method Receive(id: Option<ID>, now: int, reading: int, payload: Bytes, oversized: bool, admission: Admission,
                   commitAccepted: bool)
      returns (journal: Journal)
      ensures fresh(journal) && journal.Valid() && Finished(journal.phase)
      ensures journal.first == Begin(id.Some? && admission.Granted?)
      ensures journal.phase.saved.Some? <==> id.Some?
      ensures id.Some? ==>
        var x := journal.phase.saved.value;
        && x.id == id.value && x.transport == UDP && x.datagram == Some(payload)
        && x.started == now && x.completed == Some(now) && x.monotonic == Some(reading) && x.revision == 1
        && x.state == (if oversized || admission.Refused? then Discarded else Completed)
        && x.requestBody == [] && x.response.None?
        && x.persistence == (if !admission.Granted? then Persistence.Unmanaged
                             else if commitAccepted then Queued else Unpersisted)
        && journal.phase.published == 1 && Announced(journal.effects) == {1}
        && Commits(journal.effects) == if admission.Granted? then [x.(persistence := Queued)] else []
    {
      hide Play, Commits, AllCarry, Announced;
      if id.None? {
        journal := new Journal(false);
        return;
      }
      journal := new Journal(admission.Granted?);
      var state := if oversized || admission.Refused? then Discarded else Completed;
      var x := Exchange(id.value, UDP, state, 1, now, Some(now), Some(reading), [], Some(payload), None, Persistence.Unmanaged);
      if admission.Granted? {
        x := x.(persistence := Queued);
      }
      journal.Save(x);
      if admission.Granted? {
        journal.Commit(x, commitAccepted);
        if !commitAccepted {
          x := x.(persistence := Unpersisted);
          journal.Save(x);
        }
      }
      journal.Publish(x);
    }
  }
}
