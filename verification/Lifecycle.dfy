/**
  All exchanges together: any interleaving of runs, evictions, the writer, its
  OnWrite callback and deletions (internal/capture/pipeline.go,
  internal/app/app.go, internal/sqlite/repository.go). It establishes what the
  event stream and the paged history rely on.
 */
module Lifecycle {
  import opened Common
  import opened Ordering
  import opened Capture
  import opened Listing
  import opened RunProtocol
  import Store

  /**
    `queue` is what is committed and not yet written, `written` the callbacks
    the writer still owes, `fetched` the record a callback has read from RAM and
    not yet put back, `gone` what has left RAM, or is about to be deleted, and may
    still be announced.
   */
  datatype System = System(
    capacity: nat,
    runs: map<ID, Phase>,
    ram: map<ID, Exchange>,
    rows: map<ID, Exchange>,
    queue: seq<Exchange>,
    written: seq<ID>,
    fetched: Option<Exchange>,
    gone: set<(ID, nat)>,
    events: seq<(ID, nat)>)

  /** `evicted` is what a save or a resize evicts: see Store.Evicts. */
  datatype Step =
    | Begin(id: ID, held: bool)
    | Act(id: ID, effect: Effect, evicted: seq<Exchange>)
    | Resize(limit: int, evicted: seq<Exchange>)
    | Clear
    | Expire(cutoff: int)
    | Remove(id: ID)
    | Find(id: ID)
    | Announce(id: ID, revision: nat)
    | Write(succeeds: bool)
    | Fetch(succeeded: bool)
    | PutBack(evicted: seq<Exchange>)
    | Delete(id: ID)

  /** A start with the rows an earlier process left. */
  function Start(rows: map<ID, Exchange>, capacity: nat): System {
    System(capacity, map[], map[], rows, [], [], None, {}, [])
  }

  /** The record an effect is about carries the run's own id. */
  predicate Own(id: ID, effect: Effect) {
    effect.Saved? ==> effect.x.id == id
  }

  /** Random ids: a new one is not used for anything yet. */
  ghost predicate Unused(s: System, id: ID) {
    && id !in s.runs && id !in s.rows
    && forall revision :: (id, revision) !in s.gone && (id, revision) !in s.events
  }

  function Capacity(limit: int): nat {
    if limit < 1 then 1 else limit
  }

  ghost predicate Enabled(s: System, step: Step) {
    match step
    case Begin(id, _) => Unused(s, id)
    case Act(id, effect, evicted) =>
      && id in s.runs && Own(id, effect) && Accepts(s.runs[id], effect)
      && (effect.Saved? ==> Store.Evicts(s.ram[id := effect.x], s.capacity, evicted))
    case Resize(limit, evicted) => Store.Evicts(s.ram, Capacity(limit), evicted)
    case Clear => true
    case Expire(_) => true
    case Remove(_) => true
    case Find(id) => Found(s, id).Some? && IsTerminal(Found(s, id).value.state)
    case Announce(id, revision) => (id, revision) in s.gone
    case Write(_) => s.queue != []
    case Fetch(_) => s.written != [] && s.fetched.None?
    case PutBack(evicted) =>
      && s.fetched.Some?
      && Store.Evicts(s.ram[s.fetched.value.id := s.fetched.value], s.capacity, evicted)
    case Delete(_) => true
  }

  /** What the delete handler looks up: the RAM copy, or the row. */
  function Found(s: System, id: ID): Option<Exchange> {
    if id in s.ram then Some(s.ram[id]) else if id in s.rows then Some(s.rows[id]) else None
  }

  lemma FindsExactly(s: System, id: ID)
    ensures Found(s, id).None? <==> id !in s.ram && id !in s.rows
    ensures id in s.ram ==> Found(s, id) == Some(s.ram[id])
    ensures id !in s.ram && id in s.rows ==> Found(s, id) == Some(s.rows[id])
  {
  }

  /** What leaves when `all` shrinks to `kept`. */
  ghost function Lost(all: map<ID, Exchange>, kept: map<ID, Exchange>): set<(ID, nat)> {
    set id | id in all && id !in kept :: (id, all[id].revision)
  }

  /** RAM becomes `kept`, out of `all`. */
  ghost function Shrunk(s: System, all: map<ID, Exchange>, kept: map<ID, Exchange>): System {
    s.(ram := kept, gone := s.gone + Lost(all, kept))
  }

  /** Memory.Save: the exchange is filed and the excess evicted in one critical section. */
  ghost function Filing(s: System, x: Exchange, evicted: seq<Exchange>): System {
    var all := s.ram[x.id := x];
    Shrunk(s, all, Store.Left(all, evicted))
  }

  ghost function Without(ram: map<ID, Exchange>, leaves: Exchange -> bool): map<ID, Exchange> {
    map id | id in ram && !leaves(ram[id]) :: ram[id]
  }

  ghost function Acted(s: System, id: ID, effect: Effect, evicted: seq<Exchange>): System
    requires id in s.runs
  {
    var t := s.(runs := s.runs[id := After(s.runs[id], effect)]);
    match effect
    case Saved(x) => Filing(t, x, evicted)
    case Published(_, revision) => t.(events := s.events + [(id, revision)])
    case Committed(x, accepted) => if accepted then t.(queue := s.queue + [x]) else t
    case Abandoned => t
  }

  ghost function Next(s: System, step: Step): System
    requires Enabled(s, step)
  {
    match step
    case Begin(id, held) => s.(runs := s.runs[id := RunProtocol.Begin(held)])
    case Act(id, effect, evicted) => Acted(s, id, effect, evicted)
    case Resize(limit, evicted) => Shrunk(s.(capacity := Capacity(limit)), s.ram, Store.Left(s.ram, evicted))
    case Clear => Shrunk(s, s.ram, Without(s.ram, Store.Terminal))
    case Expire(cutoff) => Shrunk(s, s.ram, Without(s.ram, (x: Exchange) => Store.ExpiredBefore(x, cutoff)))
    case Remove(id) => Shrunk(s, s.ram, Without(s.ram, (x: Exchange) => x.id == id && Store.Terminal(x)))
    case Find(id) => s.(gone := s.gone + {(id, Found(s, id).value.revision)})
    case Announce(id, revision) => s.(events := s.events + [(id, revision)])
    case Write(succeeds) =>
      var x := s.queue[0];
      s.(queue := s.queue[1..], written := s.written + [x.id], rows := if succeeds then s.rows[x.id := Stored(x)] else s.rows)
    case Fetch(succeeded) => s.(written := s.written[1..], fetched := Got(s, s.written[0], succeeded))
    case PutBack(evicted) => Filing(s, s.fetched.value, evicted).(fetched := None)
    case Delete(id) => s.(rows := s.rows - {id})
  }

  /** What the writer's callback reads from RAM, with the outcome noted on it. */
  function Got(s: System, id: ID, succeeded: bool): Option<Exchange> {
    if id in s.ram then Some(s.ram[id].(persistence := if succeeded then Persisted else Unpersisted)) else None
  }

  // ------------------------------------------------------------------
  // What every step does, store by store
  // ------------------------------------------------------------------

  /** RAM becomes `all` without the exchanges in `out`, each of which may now be announced at the revision it left with. */
  ghost predicate Leave(all: map<ID, Exchange>, gone: set<(ID, nat)>, t: System, out: set<ID>) {
    && out <= all.Keys && t.ram.Keys == all.Keys - out
    && (forall id :: id in t.ram ==> t.ram[id] == all[id])
    && (forall id, revision :: (id, revision) in t.gone
          <==> (id, revision) in gone || (id in out && revision == all[id].revision))
  }

  /** The same announcements, rows and work for the writer. */
  ghost predicate OnlyRam(s: System, t: System) {
    && t.events == s.events && t.rows == s.rows && t.queue == s.queue && t.written == s.written
  }

  ghost predicate SameRam(s: System, t: System) {
    t.ram == s.ram && t.capacity == s.capacity
  }

  ghost predicate IsOver(x: Exchange) {
    x.state.Completed? || x.state.Failed? || x.state.Cancelled? || x.state.Discarded?
  }

  /** What one effect of a run does to everything else. */
  ghost predicate Causes(s: System, id: ID, effect: Effect, evicted: seq<Exchange>, t: System) {
    && t.capacity == s.capacity && t.rows == s.rows && t.written == s.written && t.fetched == s.fetched
    && t.runs.Keys == s.runs.Keys && id in s.runs
    && (forall i :: i in s.runs && i != id ==> t.runs[i] == s.runs[i])
    && match effect
       case Saved(x) =>
         && t.events == s.events && t.queue == s.queue && t.runs[id] == s.runs[id].(saved := Some(x))
         && (var all := s.ram[id := x]; Leave(all, s.gone, t, set i | i in all && all[i] in evicted))
       case Published(_, revision) =>
         && t.ram == s.ram && t.gone == s.gone && t.queue == s.queue
         && t.events == s.events + [(id, revision)] && t.runs[id] == s.runs[id].(published := revision)
       case Committed(x, accepted) =>
         && t.ram == s.ram && t.gone == s.gone && t.events == s.events
         && t.queue == s.queue + (if accepted then [x] else []) && t.runs[id] == s.runs[id].(reservation := Resolved)
       case Abandoned =>
         && t.ram == s.ram && t.gone == s.gone && t.events == s.events && t.queue == s.queue
         && t.runs[id] == s.runs[id].(reservation := Resolved)
  }

  /** What RAM, the rows, the writer and the announcements are after each step. */
  ghost predicate Does(s: System, step: Step, t: System) {
    && (!step.Begin? && !step.Act? ==> t.runs == s.runs)
    && (!step.Fetch? && !step.PutBack? ==> t.fetched == s.fetched)
    && match step
       case Begin(id, held) =>
         && SameRam(s, t) && OnlyRam(s, t) && t.gone == s.gone
         && t.runs == s.runs[id := Phase(None, 0, if held then Held else NotHeld)]
       case Act(id, effect, evicted) => Causes(s, id, effect, evicted, t)
       case Resize(limit, evicted) =>
         && OnlyRam(s, t) && t.capacity == (if limit < 1 then 1 else limit)
         && Leave(s.ram, s.gone, t, set i | i in s.ram && s.ram[i] in evicted)
       case Clear => OnlyRam(s, t) && t.capacity == s.capacity && Leave(s.ram, s.gone, t, set i | i in s.ram && IsOver(s.ram[i]))
       case Expire(cutoff) =>
         && OnlyRam(s, t) && t.capacity == s.capacity
         && Leave(s.ram, s.gone, t, set i | i in s.ram && IsOver(s.ram[i]) && s.ram[i].completed.Some?
                                      && s.ram[i].completed.value < cutoff)
       case Remove(id) =>
         && OnlyRam(s, t) && t.capacity == s.capacity
         && Leave(s.ram, s.gone, t, set i | i in s.ram && i == id && IsOver(s.ram[i]))
       case Find(id) =>
         && SameRam(s, t) && OnlyRam(s, t)
         && (id in s.ram ==> t.gone == s.gone + {(id, s.ram[id].revision)})
         && (id !in s.ram ==> id in s.rows && t.gone == s.gone + {(id, s.rows[id].revision)})
       case Announce(id, revision) =>
         && SameRam(s, t) && t.rows == s.rows && t.queue == s.queue && t.written == s.written && t.gone == s.gone
         && t.events == s.events + [(id, revision)]
       case Write(succeeds) =>
         && SameRam(s, t) && t.events == s.events && t.gone == s.gone
         && s.queue != [] && s.queue == [s.queue[0]] + t.queue && t.written == s.written + [s.queue[0].id]
         && t.rows == if succeeds then s.rows[s.queue[0].id := s.queue[0].(monotonic := None)] else s.rows
       case Fetch(succeeded) =>
         && SameRam(s, t) && t.events == s.events && t.gone == s.gone && t.rows == s.rows && t.queue == s.queue
         && s.written != [] && s.written == [s.written[0]] + t.written
         && (s.written[0] !in s.ram ==> t.fetched.None?)
         && (s.written[0] in s.ram ==>
               t.fetched == Some(s.ram[s.written[0]].(persistence := if succeeded then Persisted else Unpersisted)))
       case PutBack(evicted) =>
         && OnlyRam(s, t) && t.capacity == s.capacity && s.fetched.Some? && t.fetched.None?
         && (var all := s.ram[s.fetched.value.id := s.fetched.value];
             Leave(all, s.gone, t, set i | i in all && all[i] in evicted))
       case Delete(id) =>
         && SameRam(s, t) && t.events == s.events && t.gone == s.gone && t.queue == s.queue && t.written == s.written
         && t.rows == s.rows - {id}
  }

  lemma LeftLeave(s: System, all: map<ID, Exchange>, evicted: seq<Exchange>)
    ensures Leave(all, s.gone, Shrunk(s, all, Store.Left(all, evicted)), set i | i in all && all[i] in evicted)
  {
  }

  lemma WithoutLeave(s: System, leaves: Exchange -> bool, out: set<ID>)
    requires out <= s.ram.Keys && forall i :: i in s.ram ==> (i in out <==> leaves(s.ram[i]))
    ensures Leave(s.ram, s.gone, Shrunk(s, s.ram, Without(s.ram, leaves)), out)
  {
  }

  lemma LeaveAgain(all: map<ID, Exchange>, gone: set<(ID, nat)>, t: System, out: set<ID>)
    ensures Leave(all, gone, t.(fetched := None), out) <==> Leave(all, gone, t, out)
  {
  }

  lemma EffectsExactly(s: System, id: ID, effect: Effect, evicted: seq<Exchange>)
    requires Enabled(s, Act(id, effect, evicted))
    ensures Causes(s, id, effect, evicted, Next(s, Act(id, effect, evicted)))
  {
    if effect.Saved? {
      LeftLeave(s.(runs := s.runs[id := After(s.runs[id], effect)]), s.ram[id := effect.x], evicted);
    }
    hide Leave;
  }

  /** Clear, expiry and removal take out exactly the terminal exchanges they are about. */
  lemma RemovalsExactly(s: System, step: Step)
    requires RamInv(s.runs, s.ram) && Enabled(s, step)
    requires step.Clear? || step.Expire? || step.Remove?
    ensures Does(s, step, Next(s, step))
  {
    hide Copy, Leave;
    match step
    case Clear =>
      WithoutLeave(s, Store.Terminal, set i | i in s.ram && IsOver(s.ram[i]));
    case Expire(cutoff) =>
      WithoutLeave(s, (x: Exchange) => Store.ExpiredBefore(x, cutoff),
                   set i | i in s.ram && IsOver(s.ram[i]) && s.ram[i].completed.Some? && s.ram[i].completed.value < cutoff);
    case Remove(id) =>
      WithoutLeave(s, (x: Exchange) => x.id == id && Store.Terminal(x),
                   set i | i in s.ram && i == id && IsOver(s.ram[i]));
  }

  lemma SavesBackExactly(s: System, evicted: seq<Exchange>)
    requires Enabled(s, PutBack(evicted))
    ensures Does(s, PutBack(evicted), Next(s, PutBack(evicted)))
  {
    var all := s.ram[s.fetched.value.id := s.fetched.value];
    LeftLeave(s, all, evicted);
    LeaveAgain(all, s.gone, Filing(s, s.fetched.value, evicted), set i | i in all && all[i] in evicted);
    hide Leave;
  }

  lemma StepsExactly(s: System, step: Step)
    requires Inv(s) && Enabled(s, step)
    ensures Does(s, step, Next(s, step))
  {
    match step
    case Act(id, effect, evicted) => EffectsExactly(s, id, effect, evicted);
    case Clear => RemovalsExactly(s, step);
    case Expire(_) => RemovalsExactly(s, step);
    case Remove(_) => RemovalsExactly(s, step);
    case Resize(limit, evicted) => LeftLeave(s.(capacity := Capacity(limit)), s.ram, evicted);
    case PutBack(evicted) => SavesBackExactly(s, evicted);
    case _ =>
    hide Leave, Causes, RunsInv, RamInv, RowsInv, WriterInv, EventsInv, Acted;
  }

  // ------------------------------------------------------------------
  // What every step keeps
  // ------------------------------------------------------------------

  /** Equal but for the persistence status, and the monotonic time that a row lacks. */
  predicate Same(x: Exchange, y: Exchange) {
    y == x.(persistence := y.persistence, monotonic := y.monotonic)
  }

  /** A copy of the record the run saved last. */
  predicate Copy(runs: map<ID, Phase>, x: Exchange) {
    x.id in runs && runs[x.id].saved.Some? && Same(runs[x.id].saved.value, x)
  }

  predicate FinalCopy(runs: map<ID, Phase>, x: Exchange) {
    Copy(runs, x) && IsTerminal(x.state)
  }

  predicate Reached(runs: map<ID, Phase>, id: ID, revision: nat) {
    id in runs && runs[id].saved.Some? && revision <= runs[id].saved.value.revision
  }

  predicate Ended(runs: map<ID, Phase>, id: ID) {
    id in runs && runs[id].saved.Some? && IsTerminal(runs[id].saved.value.state)
  }

  ghost predicate RunsInv(runs: map<ID, Phase>) {
    forall id :: id in runs && runs[id].saved.Some? ==> runs[id].saved.value.id == id
  }

  ghost predicate RamInv(runs: map<ID, Phase>, ram: map<ID, Exchange>) {
    forall id :: id in ram ==> ram[id].id == id && Copy(runs, ram[id])
  }

  ghost predicate RowsInv(runs: map<ID, Phase>, rows: map<ID, Exchange>) {
    forall id :: id in rows ==>
      rows[id].id == id && rows[id].monotonic.None? && (id in runs ==> FinalCopy(runs, rows[id]))
  }

  ghost predicate WriterInv(runs: map<ID, Phase>, queue: seq<Exchange>, written: seq<ID>, fetched: Option<Exchange>) {
    && (forall x :: x in queue ==> FinalCopy(runs, x))
    && (forall id :: id in written ==> Ended(runs, id))
    && (fetched.Some? ==> FinalCopy(runs, fetched.value))
  }

  ghost predicate EventsInv(runs: map<ID, Phase>, gone: set<(ID, nat)>, events: seq<(ID, nat)>) {
    && (forall id, revision :: (id, revision) in gone && id in runs ==> Reached(runs, id, revision))
    && (forall id, revision :: (id, revision) in events && id in runs ==> Reached(runs, id, revision))
  }

  ghost predicate Inv(s: System) {
    && RunsInv(s.runs)
    && RamInv(s.runs, s.ram)
    && RowsInv(s.runs, s.rows)
    && WriterInv(s.runs, s.queue, s.written, s.fetched)
    && EventsInv(s.runs, s.gone, s.events)
  }

  /** What one run's next effect leaves true of everything but a save's own record. */
  lemma RunMovesOn(runs: map<ID, Phase>, id: ID, effect: Effect)
    requires RunsInv(runs) && id in runs && Own(id, effect) && Accepts(runs[id], effect)
    ensures var runs' := runs[id := After(runs[id], effect)];
            && RunsInv(runs')
            && (forall x :: FinalCopy(runs, x) ==> FinalCopy(runs', x))
            && (forall x :: Copy(runs, x) && (x.id != id || !effect.Saved?) ==> Copy(runs', x))
            && (forall i, r :: Reached(runs, i, r) ==> Reached(runs', i, r))
            && (forall i :: Ended(runs, i) ==> Ended(runs', i))
  {
  }

  /** Whatever leaves RAM, the rest is as good as before, and what left may be announced. */
  lemma ShrinkKeepsInv(s: System, all: map<ID, Exchange>, kept: map<ID, Exchange>)
    requires RunsInv(s.runs) && RowsInv(s.runs, s.rows)
    requires WriterInv(s.runs, s.queue, s.written, s.fetched) && EventsInv(s.runs, s.gone, s.events)
    requires RamInv(s.runs, all)
    requires forall id :: id in kept ==> id in all && kept[id] == all[id]
    ensures Inv(Shrunk(s, all, kept))
  {
    forall id, revision | (id, revision) in Lost(all, kept) ensures Reached(s.runs, id, revision) {
      assert Copy(s.runs, all[id]);
    }
  }

  lemma ActKeepsInv(s: System, id: ID, effect: Effect, evicted: seq<Exchange>)
    requires Inv(s) && Enabled(s, Act(id, effect, evicted))
    ensures Inv(Next(s, Act(id, effect, evicted)))
  {
    RunMovesOn(s.runs, id, effect);
    if effect.Saved? {
      var t := s.(runs := s.runs[id := After(s.runs[id], effect)]);
      var all := s.ram[id := effect.x];
      assert RamInv(t.runs, all);
      ShrinkKeepsInv(t, all, Store.Left(all, evicted));
    } else {
      ActAloneKeepsInv(s, id, effect, evicted);
    }
  }

  lemma ActAloneKeepsInv(s: System, id: ID, effect: Effect, evicted: seq<Exchange>)
    requires Inv(s) && Enabled(s, Act(id, effect, evicted)) && !effect.Saved?
    ensures Inv(Next(s, Act(id, effect, evicted)))
  {
    var t := Next(s, Act(id, effect, evicted));
    var runs' := s.runs[id := After(s.runs[id], effect)];
    assert t == s.(runs := runs', queue := t.queue, events := t.events);
    assert forall x :: x in t.queue ==> x in s.queue || FinalCopy(s.runs, x);
    assert forall i, r :: (i, r) in t.events ==> (i, r) in s.events || Reached(s.runs, i, r);
    hide Next, Enabled, Acted;
    RunAloneKeepsInv(s, id, effect, t.queue, t.events);
  }

  lemma RunAloneKeepsInv(s: System, id: ID, effect: Effect, queue: seq<Exchange>, events: seq<(ID, nat)>)
    requires Inv(s) && id in s.runs && Own(id, effect) && Accepts(s.runs[id], effect) && !effect.Saved?
    requires forall x :: x in queue ==> x in s.queue || FinalCopy(s.runs, x)
    requires forall i, r :: (i, r) in events ==> (i, r) in s.events || Reached(s.runs, i, r)
    ensures Inv(s.(runs := s.runs[id := After(s.runs[id], effect)], queue := queue, events := events))
  {
    RunMovesOn(s.runs, id, effect);
    hide Accepts, Copy, Ended, FinalCopy;
  }

  lemma BeginKeepsInv(s: System, id: ID, held: bool)
    requires Inv(s) && Enabled(s, Step.Begin(id, held))
    ensures Inv(Next(s, Step.Begin(id, held)))
  {
    var runs' := s.runs[id := RunProtocol.Begin(held)];
    assert forall x :: Copy(s.runs, x) ==> Copy(runs', x);
  }

  lemma WriterKeepsInv(s: System, step: Step)
    requires Inv(s) && Enabled(s, step)
    requires step.Write? || step.Fetch?
    ensures Inv(Next(s, step))
  {
    match step
    case Write(_) =>
      assert s.queue[0] in s.queue;
      assert forall x :: x in s.queue[1..] ==> x in s.queue;
    case Fetch(_) =>
      assert s.written[0] in s.written;
      assert forall i :: i in s.written[1..] ==> i in s.written;
  }

  lemma PutBackKeepsInv(s: System, evicted: seq<Exchange>)
    requires Inv(s) && Enabled(s, PutBack(evicted))
    ensures Inv(Next(s, PutBack(evicted)))
  {
    var y := s.fetched.value;
    var all := s.ram[y.id := y];
    assert FinalCopy(s.runs, y) && RamInv(s.runs, all);
    ShrinkKeepsInv(s.(fetched := None), all, Store.Left(all, evicted));
  }

  lemma NextKeepsInv(s: System, step: Step)
    requires Inv(s) && Enabled(s, step)
    ensures Inv(Next(s, step))
  {
    match step
    case Begin(id, held) => BeginKeepsInv(s, id, held);
    case Act(id, effect, evicted) => ActKeepsInv(s, id, effect, evicted);
    case Resize(limit, evicted) => ShrinkKeepsInv(s.(capacity := Next(s, step).capacity), s.ram, Next(s, step).ram);
    case Clear => ShrinkKeepsInv(s, s.ram, Next(s, step).ram);
    case Expire(_) => ShrinkKeepsInv(s, s.ram, Next(s, step).ram);
    case Remove(_) => ShrinkKeepsInv(s, s.ram, Next(s, step).ram);
    case Find(id) => assert id in s.ram ==> Copy(s.runs, s.ram[id]);
    case Announce(id, revision) =>
    case Delete(id) =>
    case PutBack(evicted) => PutBackKeepsInv(s, evicted);
    case Write(_) => WriterKeepsInv(s, step);
    case Fetch(_) => WriterKeepsInv(s, step);
  }

  // ------------------------------------------------------------------
  // Whole runs of the system
  // ------------------------------------------------------------------

  ghost predicate Leads(s: System, t: System) {
    exists step :: Enabled(s, step) && t == Next(s, step)
  }

  ghost predicate IsTrace(trace: seq<System>, rows: map<ID, Exchange>) {
    && trace != [] && trace[0].capacity >= 1 && trace[0] == Start(rows, trace[0].capacity)
    && Filed(rows) && Unstamped(rows)
    && forall i :: 0 <= i < |trace| - 1 ==> Leads(trace[i], trace[i + 1])
  }

  lemma FrontIsTrace(trace: seq<System>, rows: map<ID, Exchange>)
    requires IsTrace(trace, rows) && |trace| > 1
    ensures IsTrace(trace[..|trace| - 1], rows)
  {
    hide Leads, Start;
  }

  lemma {:induction false} TraceKeepsInv(trace: seq<System>, rows: map<ID, Exchange>)
    requires IsTrace(trace, rows)
    ensures forall i :: 0 <= i < |trace| ==> Inv(trace[i])
    decreases |trace|
  {
    var n := |trace| - 1;
    if n > 0 {
      FrontIsTrace(trace, rows);
      assert Leads(trace[n - 1], trace[n - 1 + 1]);
      hide Inv, IsTrace, Start;
      TraceKeepsInv(trace[..n], rows);
      assert trace[..n][n - 1] == trace[n - 1];
      var step :| Enabled(trace[n - 1], step) && trace[n] == Next(trace[n - 1], step);
      NextKeepsInv(trace[n - 1], step);
    }
  }

  /**
    Saving before publishing pays off: whenever RAM is read, it shows every
    exchange it still holds at least at the revision of every event published
    about it so far.
   */
  lemma SnapshotCoversEvents(trace: seq<System>, rows: map<ID, Exchange>, i: nat, id: ID, revision: nat)
    requires IsTrace(trace, rows) && i < |trace|
    requires (id, revision) in trace[i].events && id in trace[i].ram
    ensures revision <= trace[i].ram[id].revision
  {
    TraceKeepsInv(trace, rows);
    assert Reached(trace[i].runs, id, revision) && Copy(trace[i].runs, trace[i].ram[id]);
  }

  lemma LeadsKeepsEvents(s: System, t: System)
    requires Leads(s, t)
    ensures s.events <= t.events
  {
    hide Accepts, Store.Evicts, Lost, Without;
    var step :| Enabled(s, step) && t == Next(s, step);
  }

  lemma {:induction false} EventsStay(trace: seq<System>, rows: map<ID, Exchange>, i: nat, j: nat)
    requires IsTrace(trace, rows) && i <= j < |trace|
    ensures trace[i].events <= trace[j].events
  {
    hide Leads;
    if i < j {
      EventsStay(trace, rows, i, j - 1);
      assert Leads(trace[j - 1], trace[j - 1 + 1]);
      LeadsKeepsEvents(trace[j - 1], trace[j]);
    }
  }

  /**
    A browser reads the detail of an exchange after each of its events. Whatever
    it then gets, from RAM or from SQLite, is at least at the revision of the
    event, so its guard against an older detail never applies.
   */
  lemma DetailCoversEvent(trace: seq<System>, rows: map<ID, Exchange>, event: nat, read: nat, x: Exchange,
                          revision: nat)
    requires IsTrace(trace, rows) && event <= read < |trace|
    requires (x.id, revision) in trace[event].events && ShownAt(trace[read], x)
    ensures revision <= x.revision
  {
    EventsStay(trace, rows, event, read);
    TraceKeepsInv(trace, rows);
    ShownIsCopy(trace, rows, read, x);
    assert Reached(trace[read].runs, x.id, revision);
  }

  /** The RAM copy and the row of one exchange always have the same ordering key. */
  lemma CopiesShareKeys(trace: seq<System>, rows: map<ID, Exchange>, i: nat, id: ID)
    requires IsTrace(trace, rows) && i < |trace|
    requires id in trace[i].ram && id in trace[i].rows
    ensures KeyOf(trace[i].ram[id]) == KeyOf(trace[i].rows[id])
    ensures IsTerminal(trace[i].ram[id].state) && trace[i].ram[id].revision == trace[i].rows[id].revision
  {
    TraceKeepsInv(trace, rows);
  }

  /** Completed exactly when terminal. */
  predicate DatedRecord(x: Exchange) {
    x.completed.Some? <==> IsTerminal(x.state)
  }

  ghost predicate Dated(runs: map<ID, Phase>) {
    forall id :: id in runs && runs[id].saved.Some? ==> DatedRecord(runs[id].saved.value)
  }

  /** A later version of an exchange: a revision is one record but for the status, and a terminal record is the last. */
  predicate Upgrades(x: Exchange, y: Exchange) {
    && x.id == y.id && x.started == y.started
    && x.revision <= y.revision
    && (x.revision == y.revision || IsTerminal(x.state) ==> Same(x, y))
  }

  /** A run that has saved a record keeps one, and only upgrades it. */
  predicate OnlyUpgrades(runs: map<ID, Phase>, runs': map<ID, Phase>, id: ID) {
    id in runs && runs[id].saved.Some? ==>
      id in runs' && runs'[id].saved.Some? && Upgrades(runs[id].saved.value, runs'[id].saved.value)
  }

  lemma NextUpgrades(s: System, step: Step)
    requires Dated(s.runs) && Enabled(s, step)
    ensures Dated(Next(s, step).runs)
    ensures forall id :: OnlyUpgrades(s.runs, Next(s, step).runs, id)
  {
    if step.Act? {
      var p := s.runs[step.id];
      assert step.effect.Saved? && p.saved.Some? ==> Succeeds(p.saved.value, step.effect.x);
      assert Next(s, step).runs == s.runs[step.id := After(p, step.effect)];
      RunUpgrades(s.runs, Next(s, step).runs, step.id, step.effect);
    }
  }

  lemma RunUpgrades(runs: map<ID, Phase>, runs': map<ID, Phase>, id: ID, effect: Effect)
    requires Dated(runs) && id in runs && Accepts(runs[id], effect) && runs' == runs[id := After(runs[id], effect)]
    requires effect.Saved? && runs[id].saved.Some? ==>
               DatedRecord(effect.x) && Upgrades(runs[id].saved.value, effect.x)
    ensures Dated(runs')
    ensures forall i :: OnlyUpgrades(runs, runs', i)
  {
    hide Succeeds;
  }

  lemma {:induction false} TraceDated(trace: seq<System>, rows: map<ID, Exchange>, i: nat)
    requires IsTrace(trace, rows) && i < |trace|
    ensures Dated(trace[i].runs)
  {
    if i > 0 {
      TraceDated(trace, rows, i - 1);
      assert Leads(trace[i - 1], trace[i - 1 + 1]);
      var step :| Enabled(trace[i - 1], step) && trace[i] == Next(trace[i - 1], step);
      NextUpgrades(trace[i - 1], step);
    }
  }

  /** Over any stretch of any run a saved record only upgrades. */
  lemma {:induction false} RecordsOnlyUpgrade(trace: seq<System>, rows: map<ID, Exchange>, i: nat, j: nat)
    requires IsTrace(trace, rows) && i <= j < |trace|
    ensures forall id :: OnlyUpgrades(trace[i].runs, trace[j].runs, id)
  {
    if i < j {
      RecordsOnlyUpgrade(trace, rows, i, j - 1);
      TraceDated(trace, rows, j - 1);
      assert Leads(trace[j - 1], trace[j - 1 + 1]);
      var step :| Enabled(trace[j - 1], step) && trace[j] == Next(trace[j - 1], step);
      NextUpgrades(trace[j - 1], step);
      forall id ensures OnlyUpgrades(trace[i].runs, trace[j].runs, id) {
        assert OnlyUpgrades(trace[i].runs, trace[j - 1].runs, id);
        assert OnlyUpgrades(trace[j - 1].runs, trace[j].runs, id);
      }
    }
  }

  /** A record RAM or a row showed at one moment; rows of an earlier process are not of this run. */
  ghost predicate ShownAt(s: System, x: Exchange) {
    x.id in s.runs && ((x.id in s.ram && s.ram[x.id] == x) || (x.id in s.rows && s.rows[x.id] == x))
  }

  lemma ShownIsCopy(trace: seq<System>, rows: map<ID, Exchange>, i: nat, x: Exchange)
    requires IsTrace(trace, rows) && i < |trace| && ShownAt(trace[i], x)
    ensures Copy(trace[i].runs, x) && (x.completed.Some? <==> IsTerminal(x.state))
  {
    TraceKeepsInv(trace, rows);
    TraceDated(trace, rows, i);
  }

  /** Whatever is read later about an exchange is an upgrade of what was read before, from either store. */
  lemma ReadingsUpgrade(trace: seq<System>, rows: map<ID, Exchange>, i: nat, j: nat, x: Exchange, y: Exchange)
    requires IsTrace(trace, rows) && i <= j < |trace| && x.id == y.id
    requires ShownAt(trace[i], x) && ShownAt(trace[j], y)
    ensures Upgrades(x, y)
  {
    ShownIsCopy(trace, rows, i, x);
    ShownIsCopy(trace, rows, j, y);
    RecordsOnlyUpgrade(trace, rows, i, j);
    assert OnlyUpgrades(trace[i].runs, trace[j].runs, x.id);
  }

  // ------------------------------------------------------------------
  // The callback's read and save
  // ------------------------------------------------------------------

  /**
    The writer's callback reads RAM and saves back in two steps. While no two
    terminal datagrams are ordered differently by their two clocks, what it read
    is in RAM after its save, whatever removed it in between, exactly when fewer
    than capacity terminal exchanges are newer then.
   */
  lemma PutBackExactly(s: System, evicted: seq<Exchange>)
    requires Inv(s) && Enabled(s, PutBack(evicted))
    requires Steady(Store.Terminals(s.ram[s.fetched.value.id := s.fetched.value]))
    ensures var y := s.fetched.value;
            y.id in Next(s, PutBack(evicted)).ram <==> |Store.Outranking(s.ram, y)| < s.capacity
  {
    var y := s.fetched.value;
    var all := s.ram[y.id := y];
    assert FinalCopy(s.runs, y) && RamInv(s.runs, all);
    Store.KeptExactly(all, s.capacity, evicted, y.id);
    assert Store.Outranking(all, y) == Store.Outranking(s.ram, y);
  }

  /** A datagram of this run: terminal at once, saved and committed. */
  function Datagram(): Exchange {
    Exchange(7, UDP, Completed, 1, 10, Some(10), Some(1), [], Some([]), None, Queued)
  }

  lemma AloneIsListed(x: Exchange)
    ensures IsListing(if Store.Terminal(x) then [x] else [], Store.Terminals(map[x.id := x]))
  {
    var terminals := Store.Terminals(map[x.id := x]);
    if Store.Terminal(x) {
      assert Arranges([x], terminals);
      assert Sorted([x]) == [x] by { assert [x][..0] == []; }
    } else {
      assert Arranges([], terminals) && Sorted([]) == [];
    }
  }

  /** RAM that holds nothing else evicts nothing. */
  lemma FiledAlone(s: System, x: Exchange)
    requires s.ram.Keys <= {x.id} && s.capacity >= 1
    ensures Store.Evicts(s.ram[x.id := x], s.capacity, [])
    ensures s.ram[x.id := x] == map[x.id := x] && Filing(s, x, []).ram == map[x.id := x]
  {
    AloneIsListed(x);
    hide IsListing, Store.Terminals, Store.Terminal;
    assert s.ram[x.id := x] == map[x.id := x];
    var listing := if Store.Terminal(x) then [x] else [];
    assert Drop(listing, s.capacity) == [];
  }

  lemma Step1(s: System, step: Step)
    requires Enabled(s, step)
    ensures Leads(s, Next(s, step))
  {
  }

  /** One run alone: RAM holds its record and nothing else. */
  function Alone(x: Exchange, published: nat, reservation: Reservation, queue: seq<Exchange>,
                 rows: map<ID, Exchange>, written: seq<ID>, fetched: Option<Exchange>, events: seq<(ID, nat)>): System {
    System(1, map[x.id := Phase(Some(x), published, reservation)], map[x.id := x], rows, queue, written, fetched, {}, events)
  }

  /** Alone while the run holds its reservation and nothing is with the writer. */
  function Recording(x: Exchange, published: nat, events: seq<(ID, nat)>): System {
    Alone(x, published, Held, [], map[], [], None, events)
  }

  lemma SavedAlone(s: System, x: Exchange)
    requires s.ram.Keys <= {x.id} && s.capacity == 1 && x.id in s.runs && Accepts(s.runs[x.id], Saved(x))
    ensures Leads(s, s.(runs := s.runs[x.id := After(s.runs[x.id], Saved(x))], ram := map[x.id := x]))
  {
    var t := s.(runs := s.runs[x.id := After(s.runs[x.id], Saved(x))]);
    FiledAlone(t, x);
    assert Lost(map[x.id := x], map[x.id := x]) == {};
    hide Store.Evicts, Accepts;
    Step1(s, Act(x.id, Saved(x), []));
    assert Next(s, Act(x.id, Saved(x), [])) == t.(ram := map[x.id := x]);
  }

  lemma Begins(x: Exchange)
    requires Fresh(x)
    ensures var begun := Next(Start(map[], 1), Step.Begin(x.id, true));
            Leads(Start(map[], 1), begun) && Leads(begun, Recording(x, 0, []))
  {
    var begun := Next(Start(map[], 1), Step.Begin(x.id, true));
    Step1(Start(map[], 1), Step.Begin(x.id, true));
    SavedAlone(begun, x);
    assert begun.(runs := begun.runs[x.id := After(begun.runs[x.id], Saved(x))], ram := map[x.id := x])
        == Recording(x, 0, []);
  }

  lemma Saves(x: Exchange, y: Exchange, published: nat, events: seq<(ID, nat)>)
    requires Succeeds(x, y)
    ensures Leads(Recording(x, published, events), Recording(y, published, events))
  {
    var s := Recording(x, published, events);
    SavedAlone(s, y);
    assert s.(runs := s.runs[y.id := After(s.runs[y.id], Saved(y))], ram := map[y.id := y])
        == Recording(y, published, events);
  }

  lemma Publishes(x: Exchange, published: nat, events: seq<(ID, nat)>)
    requires published < x.revision
    ensures Leads(Recording(x, published, events), Recording(x, x.revision, events + [(x.id, x.revision)]))
  {
    var s := Recording(x, published, events);
    Step1(s, Act(x.id, Published(x.id, x.revision), []));
    assert Next(s, Act(x.id, Published(x.id, x.revision), []))
        == Recording(x, x.revision, events + [(x.id, x.revision)]);
  }

  /** The terminal record is committed and written. */
  lemma IsWritten(x: Exchange, published: nat, events: seq<(ID, nat)>)
    requires IsTerminal(x.state)
    ensures var queued := Alone(x, published, Resolved, [x], map[], [], None, events);
            && Leads(Recording(x, published, events), queued)
            && Leads(queued, Alone(x, published, Resolved, [], map[x.id := Stored(x)], [x.id], None, events))
  {
    var held := Recording(x, published, events);
    Step1(held, Act(x.id, Committed(x, true), []));
    var queued := Alone(x, published, Resolved, [x], map[], [], None, events);
    assert Next(held, Act(x.id, Committed(x, true), [])) == queued;
    Step1(queued, Write(true));
    assert Next(queued, Write(true))
        == Alone(x, published, Resolved, [], map[x.id := Stored(x)], [x.id], None, events);
  }

  /** Some trace of `n` states, from a start without rows, ends with `t`. */
  ghost predicate TraceTo(t: System, n: nat) {
    exists trace :: IsTrace(trace, map[]) && |trace| == n && n > 0 && trace[n - 1] == t
  }

  lemma Extended(trace: seq<System>, t: System)
    requires IsTrace(trace, map[]) && Leads(trace[|trace| - 1], t)
    ensures IsTrace(trace + [t], map[])
  {
    hide Leads, Start;
  }

  lemma OneMore(s: System, n: nat, t: System)
    requires TraceTo(s, n) && Leads(s, t)
    ensures TraceTo(t, n + 1)
  {
    var trace :| IsTrace(trace, map[]) && |trace| == n && n > 0 && trace[n - 1] == s;
    hide IsTrace;
    Extended(trace, t);
    assert (trace + [t])[n] == t;
  }

  /** The first record of a run that is alone. */
  lemma FirstSaved(x: Exchange)
    requires Fresh(x)
    ensures TraceTo(Recording(x, 0, []), 3)
  {
    Begins(x);
    var start, begun := Start(map[], 1), Next(Start(map[], 1), Step.Begin(x.id, true));
    assert IsTrace([start], map[]) && [start][0] == start;
    hide Leads, IsTrace, Next, Start, Recording;
    OneMore(start, 1, begun);
    OneMore(begun, 2, Recording(x, 0, []));
  }

  // ------------------------------------------------------------------
  // A cleared exchange that comes back
  // ------------------------------------------------------------------

  lemma ClearThenSave(s: System)
    requires s.ram == map[7 := Datagram()] && s.capacity == 1
    requires s.fetched == Some(Datagram().(persistence := Persisted))
    ensures var cleared := Next(s, Clear);
            && Leads(s, cleared) && 7 !in cleared.ram && (7, 1) in cleared.gone && cleared.runs == s.runs
            && Enabled(cleared, PutBack([])) && Leads(cleared, Next(cleared, PutBack([])))
            && 7 in Next(cleared, PutBack([])).ram && Next(cleared, PutBack([])).runs == s.runs
  {
    var cleared := Next(s, Clear);
    assert Store.Terminal(s.ram[7]);
    assert (7, s.ram[7].revision) in Lost(s.ram, cleared.ram);
    assert cleared.ram == map[];
    FiledAlone(cleared, s.fetched.value);
    hide Store.Evicts;
    Step1(s, Clear);
    Step1(cleared, PutBack([]));
  }

  /**
    A run that shows it: a datagram is saved, committed and written, the
    callback reads it, the history is cleared, and the callback's save brings the
    cleared datagram back, although its run has saved nothing since.
   */
  lemma ClearedComesBack()
    ensures exists trace :: IsTrace(trace, map[]) && |trace| == 8 && ComesBack(trace[5], trace[6], trace[7])
  {
    var x := Datagram();
    var read := Alone(x, 0, Resolved, [], map[7 := Stored(x)], [], Some(x.(persistence := Persisted)), []);
    ClearThenSave(read);
    DatagramIsRead();
    var cleared := Next(read, Clear);
    var back := Next(cleared, PutBack([]));
    var trace :| IsTrace(trace, map[]) && |trace| == 6 && trace[5] == read;
    hide Next, Leads, IsTrace, Start, Enabled;
    Extended(trace, cleared);
    Extended(trace + [cleared], back);
    var longer := trace + [cleared] + [back];
    assert longer[5] == read && longer[6] == cleared && longer[7] == back;
  }

  predicate ComesBack(read: System, cleared: System, back: System) {
    && 7 in read.ram && 7 !in cleared.ram && (7, 1) in cleared.gone && 7 in back.ram
    && read.runs == cleared.runs == back.runs
  }

  lemma DatagramIsRead()
    ensures TraceTo(Alone(Datagram(), 0, Resolved, [], map[7 := Stored(Datagram())], [],
                          Some(Datagram().(persistence := Persisted)), []), 6)
  {
    var x := Datagram();
    FirstSaved(x);
    IsWritten(x, 0, []);
    var queued := Alone(x, 0, Resolved, [x], map[], [], None, []);
    var written := Alone(x, 0, Resolved, [], map[7 := Stored(x)], [7], None, []);
    var read := Alone(x, 0, Resolved, [], map[7 := Stored(x)], [], Some(x.(persistence := Persisted)), []);
    Step1(written, Fetch(true));
    assert Next(written, Fetch(true)) == read;
    hide TraceTo, Leads;
    OneMore(Recording(x, 0, []), 3, queued);
    OneMore(queued, 4, written);
    OneMore(written, 5, read);
  }
}
