/**
  Persistence admission, the single writer, and the drains before VACUUM and
  close, as a step system (internal/sqlite/repository.go). One step is one
  mutex section, one compare-and-swap or one channel operation.
 */
module ReservationProtocol {
  import opened Common
  import opened Capture
  import Ordering

  /** int64 arithmetic wraps. */
  function Wrap64(x: int): int {
    (x + MAX64 + 1) % 0x1_0000_0000_0000_0000 - MAX64 - 1
  }

  /** The wrapped value is the int64 that differs by a multiple of two to the power of 64. */
  lemma WrapsExactly(x: int)
    ensures -MAX64 - 1 <= Wrap64(x) <= MAX64
    ensures exists k :: Wrap64(x) == x + k * 0x1_0000_0000_0000_0000
    ensures -MAX64 - 1 <= x <= MAX64 ==> Wrap64(x) == x
  {
    var k := (x + MAX64 + 1) / 0x1_0000_0000_0000_0000;
    assert Wrap64(x) == x + (-k) * 0x1_0000_0000_0000_0000;
  }

  datatype Options = Options(queueCount: nat, queueBytes: int, batchSize: nat)

  predicate Usable(options: Options) {
    options.queueCount >= 1 && 1 <= options.queueBytes <= MAX64 && options.batchSize >= 1
  }

  /** Open until Commit or Cancel wins the swap; Refused is a commit that found the queue full. */
  datatype Phase = Open | Committing(x: Exchange) | Refused | Cancelling | Enqueued | Batched

  datatype Reservation = Reservation(bytes: int, phase: Phase)

  datatype Item = Item(reservation: nat, exchange: Exchange)

  /** Releasing counts how many items of the written batch have been released. */
  datatype Writer = Idle | Collecting(batch: seq<Item>) | Releasing(batch: seq<Item>, released: nat) | Exited

  datatype Maintenance = NoMaintenance | Cleanup | Compact | Vacuum

  /** How far Close has come. */
  datatype Stage = Running | Refusing | ClosingSignalled | SawZero | StopSignalled | DatabaseClosed

  /**
    `live` holds the reservations not yet released. `issued`, `resolved`,
    `committed`, `written` and `vacuumSawZero` are history.
   */
  datatype State = State(
    options: Options,
    accepting: bool,
    maintenance: Maintenance,
    reservedCount: int,
    reservedBytes: int,
    writes: seq<Item>,
    writer: Writer,
    stage: Stage,
    live: map<nat, Reservation>,
    issued: nat,
    resolved: seq<nat>,
    committed: seq<Item>,
    written: seq<Item>,
    vacuumSawZero: bool)

  function Opened(options: Options): State {
    State(options, true, NoMaintenance, 0, 0, [], Idle, Running, map[], 0, [], [], [], false)
  }

  datatype Step =
    | Reserve(bytes: int)
    | ClaimCommit(id: nat, x: Exchange)
    | Send(id: nat)
    | ReleaseRefused(id: nat)
    | ClaimCancel(id: nat)
    | ReleaseCancelled(id: nat)
    | TakeFirst
    | TakeMore
    | WriteBatch
    | ReleaseWritten
    | ExitWriter
    | BeginMaintenance(kind: Maintenance)
    | VacuumSeesZero
    | EndMaintenance
    | RefuseIntake
    | SignalClosing
    | CloseSeesZero
    | SignalStop
    | CloseDatabase

  predicate InPhase(s: State, id: nat, phase: Phase) {
    id in s.live && s.live[id].phase == phase
  }

  predicate Enabled(s: State, step: Step) {
    match step
    case Reserve(bytes) => -MAX64 - 1 <= bytes <= MAX64
    case ClaimCommit(id, _) => InPhase(s, id, Open)
    case Send(id) => id in s.live && s.live[id].phase.Committing?
    case ReleaseRefused(id) => InPhase(s, id, Refused)
    case ClaimCancel(id) => InPhase(s, id, Open)
    case ReleaseCancelled(id) => InPhase(s, id, Cancelling)
    case TakeFirst => s.writer.Idle? && s.writes != []
    case TakeMore => s.writer.Collecting? && s.writes != [] && |s.writer.batch| < s.options.batchSize
    case WriteBatch => s.writer.Collecting?
    case ReleaseWritten => s.writer.Releasing? && s.writer.released < |s.writer.batch|
    case ExitWriter => s.writer.Idle? && (s.stage.StopSignalled? || s.stage.DatabaseClosed?)
    case BeginMaintenance(kind) => s.maintenance.NoMaintenance? && !kind.NoMaintenance?
    case VacuumSeesZero => s.maintenance.Vacuum? && s.reservedCount == 0
    case EndMaintenance => !s.maintenance.NoMaintenance?
    case RefuseIntake => s.stage.Running?
    case SignalClosing => s.stage.Refusing?
    case CloseSeesZero => s.stage.ClosingSignalled? && s.reservedCount == 0
    case SignalStop => s.stage.SawZero?
    case CloseDatabase => s.stage.StopSignalled? && s.writer.Exited?
  }

  function Clamped(bytes: int): int {
    if bytes < 0 then 0 else bytes
  }

  /** The admission test, with the source's wrapping sum. */
  predicate Admits(s: State, bytes: int) {
    && s.accepting
    && !s.maintenance.Vacuum?
    && s.reservedCount < s.options.queueCount
    && Wrap64(s.reservedBytes + bytes) <= s.options.queueBytes
  }

  function Admitted(s: State, bytes: int): State {
    s.(reservedCount := s.reservedCount + 1, reservedBytes := Wrap64(s.reservedBytes + bytes),
       live := s.live[s.issued := Reservation(bytes, Open)], issued := s.issued + 1)
  }

  /** `release`: both counters are lowered and clamped at zero. */
  function Released(s: State, id: nat): State
    requires id in s.live
  {
    s.(reservedCount := Clamped(s.reservedCount - 1),
       reservedBytes := Clamped(Wrap64(s.reservedBytes - s.live[id].bytes)),
       live := s.live - {id})
  }

  function Rephased(s: State, id: nat, phase: Phase): State
    requires id in s.live
  {
    s.(live := s.live[id := s.live[id].(phase := phase)])
  }

  function Next(s: State, step: Step): State
    requires Enabled(s, step)
  {
    match step
    case Reserve(bytes) => var b := Clamped(bytes); if Admits(s, b) then Admitted(s, b) else s
    case ClaimCommit(id, x) => Rephased(s, id, Committing(x)).(resolved := s.resolved + [id])
    case Send(id) =>
      if |s.writes| < s.options.queueCount then
        var item := Item(id, s.live[id].phase.x);
        Rephased(s, id, Enqueued).(writes := s.writes + [item], committed := s.committed + [item])
      else Rephased(s, id, Refused)
    case ReleaseRefused(id) => Released(s, id)
    case ClaimCancel(id) => Rephased(s, id, Cancelling).(resolved := s.resolved + [id])
    case ReleaseCancelled(id) => Released(s, id)
    case TakeFirst => Rebatched(s, [s.writes[0]])
    case TakeMore => Rebatched(s, s.writer.batch + [s.writes[0]])
    case WriteBatch => s.(writer := Releasing(s.writer.batch, 0), written := s.written + s.writer.batch)
    case ReleaseWritten =>
      var id := s.writer.batch[s.writer.released].reservation;
      var s' := if id in s.live then Released(s, id) else s;
      s'.(writer := if s.writer.released + 1 == |s.writer.batch| then Idle else Releasing(s.writer.batch, s.writer.released + 1))
    case ExitWriter => s.(writer := Exited)
    case BeginMaintenance(kind) => s.(maintenance := kind)
    case VacuumSeesZero => s.(vacuumSawZero := true)
    case EndMaintenance => s.(maintenance := NoMaintenance, vacuumSawZero := false)
    case RefuseIntake => s.(accepting := false, stage := Refusing)
    case SignalClosing => s.(stage := ClosingSignalled)
    case CloseSeesZero => s.(stage := SawZero)
    case SignalStop => s.(stage := StopSignalled)
    case CloseDatabase => s.(stage := DatabaseClosed)
  }

  function Rebatched(s: State, batch: seq<Item>): State
    requires s.writes != []
  {
    var id := s.writes[0].reservation;
    s.(writes := s.writes[1..], writer := Collecting(batch),
       live := if id in s.live then s.live[id := s.live[id].(phase := Batched)] else s.live)
  }

  // ------------------------------------------------------------------
  // Invariants that hold whatever sizes are reserved
  // ------------------------------------------------------------------

  /** Items the writer has taken and not yet released. */
  function Batch(w: Writer): seq<Item> {
    match w
    case Collecting(batch) => batch
    case Releasing(batch, n) => if n <= |batch| then batch[n..] else []
    case _ => []
  }

  function Unwritten(w: Writer): seq<Item> {
    if w.Collecting? then w.batch else []
  }

  /** Each pending item belongs to a live reservation of the right phase, and to one only. */
  ghost predicate Owned(live: map<nat, Reservation>, items: seq<Item>, phase: Phase) {
    && (forall i :: 0 <= i < |items| ==> items[i].reservation in live && live[items[i].reservation].phase == phase)
    && (forall i, j :: 0 <= i < j < |items| ==> items[i].reservation != items[j].reservation)
  }

  ghost predicate Resolutions(s: State) {
    && (forall id :: id in s.live ==> id < s.issued)
    && (forall i, j :: 0 <= i < j < |s.resolved| ==> s.resolved[i] != s.resolved[j])
    && (forall id :: id in s.resolved ==> id < s.issued && !InPhase(s, id, Open))
  }

  /** The count and the reservations. */
  ghost predicate Tallied(s: State) {
    && Usable(s.options)
    && s.reservedCount == |s.live| <= s.options.queueCount
    && (forall id :: id in s.live ==> !s.live[id].phase.Refused?)
    && Resolutions(s)
  }

  /** The queue, the batch and the order of commits. */
  ghost predicate Lined(s: State) {
    && Owned(s.live, s.writes, Enqueued)
    && Owned(s.live, Batch(s.writer), Batched)
    && (s.writer.Collecting? ==> 1 <= |s.writer.batch| <= s.options.batchSize)
    && (s.writer.Releasing? ==> s.writer.released < |s.writer.batch|)
    && s.committed == s.written + Unwritten(s.writer) + s.writes
  }

  ghost predicate CountInv(s: State) {
    Tallied(s) && Lined(s)
  }

  /** The drains: once they saw zero, the count is still zero. */
  ghost predicate DrainInv(s: State) {
    && (s.accepting <==> s.stage.Running?)
    && (s.stage.SawZero? || s.stage.StopSignalled? || s.stage.DatabaseClosed? ==> s.reservedCount == 0)
    && (s.vacuumSawZero ==> s.maintenance.Vacuum? && s.reservedCount == 0)
    && (s.writer.Exited? ==> s.stage.StopSignalled? || s.stage.DatabaseClosed?)
    && (s.stage.DatabaseClosed? ==> s.writer.Exited?)
  }

  ghost function Owners(items: seq<Item>): set<nat> {
    set i | 0 <= i < |items| :: items[i].reservation
  }

  lemma {:induction false} OwnerCount(items: seq<Item>)
    requires forall i, j :: 0 <= i < j < |items| ==> items[i].reservation != items[j].reservation
    ensures |Owners(items)| == |items|
  {
    if items != [] {
      var n := |items| - 1;
      OwnerCount(items[..n]);
      assert Owners(items) == Owners(items[..n]) + {items[n].reservation};
    }
  }

  /** A commit in progress always finds room: ErrQueueFull is unreachable. */
  lemma CommitFindsRoom(s: State, id: nat)
    requires CountInv(s) && id in s.live && s.live[id].phase.Committing?
    ensures |s.writes| < s.options.queueCount
  {
    OwnerCount(s.writes);
    assert Owners(s.writes) <= s.live.Keys - {id};
    Ordering.SubsetSize(Owners(s.writes), s.live.Keys - {id});
    assert |s.live.Keys - {id}| == |s.live| - 1;
  }

  lemma ReserveKeepsCount(s: State, bytes: int)
    requires CountInv(s) && Enabled(s, Reserve(bytes))
    ensures CountInv(Next(s, Reserve(bytes)))
  {
    var live' := s.live[s.issued := Reservation(Clamped(bytes), Open)];
    assert Owned(live', s.writes, Enqueued) && Owned(live', Batch(s.writer), Batched);
  }

  lemma ClaimKeepsCount(s: State, step: Step)
    requires CountInv(s) && Enabled(s, step)
    requires step.ClaimCommit? || step.ClaimCancel?
    ensures CountInv(Next(s, step))
  {
    assert |Next(s, step).live.Keys| == |s.live.Keys|;
  }

  /** A send moves the reservation from committing to queued, behind everything committed before. */
  lemma SendKeepsCount(s: State, id: nat)
    requires CountInv(s) && Enabled(s, Send(id))
    ensures CountInv(Next(s, Send(id)))
  {
    CommitFindsRoom(s, id);
    var s' := Next(s, Send(id));
    assert Owned(s'.live, s.writes, Enqueued);
    assert Owned(s'.live, Batch(s.writer), Batched);
  }

  lemma RemovalKeepsOwned(live: map<nat, Reservation>, items: seq<Item>, phase: Phase, id: nat)
    requires Owned(live, items, phase)
    requires id in live ==> live[id].phase != phase
    ensures Owned(live - {id}, items, phase)
  {
  }

  lemma ReleaseKeepsTally(s: State, id: nat)
    requires Tallied(s) && id in s.live
    ensures s.reservedCount >= 1
    ensures Tallied(Released(s, id))
  {
    assert (s.live - {id}).Keys == s.live.Keys - {id};
    assert |s.live.Keys - {id}| == |s.live| - 1;
  }

  lemma ReleaseUnsentKeepsCount(s: State, step: Step)
    requires CountInv(s) && Enabled(s, step)
    requires step.ReleaseRefused? || step.ReleaseCancelled?
    ensures CountInv(Next(s, step))
  {
    ReleaseKeepsTally(s, step.id);
    RemovalKeepsOwned(s.live, s.writes, Enqueued, step.id);
    RemovalKeepsOwned(s.live, Batch(s.writer), Batched, step.id);
  }

  lemma ReleaseFirstOwned(live: map<nat, Reservation>, batch: seq<Item>)
    requires Owned(live, batch, Batched) && batch != []
    ensures Owned(live - {batch[0].reservation}, batch[1..], Batched)
  {
  }

  lemma ReleaseWrittenKeepsCount(s: State)
    requires CountInv(s) && Enabled(s, ReleaseWritten)
    ensures CountInv(Next(s, ReleaseWritten))
  {
    var batch := Batch(s.writer);
    var id := s.writer.batch[s.writer.released].reservation;
    assert batch[0].reservation == id && id in s.live;
    assert Tallied(Next(s, ReleaseWritten)) by { ReleaseKeepsTally(s, id); }
    RemovalKeepsOwned(s.live, s.writes, Enqueued, id);
    ReleaseFirstOwned(s.live, batch);
    assert Batch(Next(s, ReleaseWritten).writer) == batch[1..];
  }

  /** The first queued item changes sides. */
  lemma TakeKeepsOwned(live: map<nat, Reservation>, writes: seq<Item>, batch: seq<Item>)
    requires writes != [] && Owned(live, writes, Enqueued) && Owned(live, batch, Batched)
    ensures var id := writes[0].reservation;
            id in live &&
            var live' := live[id := live[id].(phase := Batched)];
            Owned(live', writes[1..], Enqueued) && Owned(live', batch + [writes[0]], Batched)
  {
  }

  lemma TakeKeepsCount(s: State, step: Step)
    requires CountInv(s) && Enabled(s, step)
    requires step.TakeFirst? || step.TakeMore?
    ensures CountInv(Next(s, step))
  {
    var s' := Next(s, step);
    var unwritten := Unwritten(s.writer);
    TakeKeepsOwned(s.live, s.writes, unwritten);
    assert s'.live.Keys == s.live.Keys;
    assert Tallied(s');
    assert Unwritten(s'.writer) == unwritten + [s.writes[0]];
    OrderKept(s.written, unwritten, s.writes);
  }

  lemma OrderKept(written: seq<Item>, batch: seq<Item>, writes: seq<Item>)
    requires writes != []
    ensures written + batch + writes == written + (batch + [writes[0]]) + writes[1..]
  {
  }

  lemma WriteKeepsCount(s: State)
    requires CountInv(s) && Enabled(s, WriteBatch)
    ensures CountInv(Next(s, WriteBatch))
  {
    assert Batch(Next(s, WriteBatch).writer) == s.writer.batch;
  }

  /** The count is right in every reachable state, whatever sizes were reserved. */
  lemma NextKeepsCount(s: State, step: Step)
    requires CountInv(s) && Enabled(s, step)
    ensures CountInv(Next(s, step))
  {
    match step
    case Reserve(bytes) => ReserveKeepsCount(s, bytes);
    case ClaimCommit(_, _) => ClaimKeepsCount(s, step);
    case ClaimCancel(_) => ClaimKeepsCount(s, step);
    case Send(id) => SendKeepsCount(s, id);
    case ReleaseRefused(_) => ReleaseUnsentKeepsCount(s, step);
    case ReleaseCancelled(_) => ReleaseUnsentKeepsCount(s, step);
    case ReleaseWritten => ReleaseWrittenKeepsCount(s);
    case TakeFirst => TakeKeepsCount(s, step);
    case TakeMore => TakeKeepsCount(s, step);
    case WriteBatch => WriteKeepsCount(s);
    case _ =>
  }

  /** Once intake is refused, only the end of maintenance can let the count leave zero. */
  lemma ZeroStays(s: State, step: Step)
    requires CountInv(s) && Enabled(s, step)
    requires s.reservedCount == 0
    requires !s.accepting || (s.maintenance.Vacuum? && !step.EndMaintenance?)
    ensures Next(s, step).reservedCount == 0
    ensures !s.accepting ==> !Next(s, step).accepting
    ensures s.accepting ==> Next(s, step).maintenance.Vacuum?
  {
    assert s.live.Keys == {};
    ItemsHaveOwners(s.live, Batch(s.writer), Batched);
  }

  lemma NextKeepsDrain(s: State, step: Step)
    requires CountInv(s) && DrainInv(s) && Enabled(s, step)
    ensures DrainInv(Next(s, step))
  {
    if s.reservedCount == 0 && (!s.accepting || (s.maintenance.Vacuum? && !step.EndMaintenance?)) {
      ZeroStays(s, step);
    }
  }

  ghost predicate Inv(s: State) {
    CountInv(s) && DrainInv(s)
  }

  lemma NextKeepsInv(s: State, step: Step)
    requires Inv(s) && Enabled(s, step)
    ensures Inv(Next(s, step))
  {
    NextKeepsCount(s, step);
    NextKeepsDrain(s, step);
  }

  /** Nothing is committed, queued or written, and the writer stays where it is. */
  ghost predicate SameItems(s: State, t: State) {
    t.writes == s.writes && t.writer == s.writer && t.committed == s.committed && t.written == s.written
  }

  ghost predicate SameStages(s: State, t: State) {
    && t.options == s.options && t.accepting == s.accepting && t.maintenance == s.maintenance
    && t.stage == s.stage && t.vacuumSawZero == s.vacuumSawZero
  }

  ghost predicate SameCounters(s: State, t: State) {
    t.reservedCount == s.reservedCount && t.reservedBytes == s.reservedBytes && t.issued == s.issued
  }

  /** The reservation is gone, and the count one lower. */
  ghost predicate Releases(s: State, id: nat, t: State) {
    && id in s.live && t.live == s.live - {id} && t.issued == s.issued
    && t.reservedCount == s.reservedCount - 1
    && (0 <= s.live[id].bytes <= s.reservedBytes <= MAX64 ==> t.reservedBytes == s.reservedBytes - s.live[id].bytes)
  }

  /** Only this reservation's phase changes. */
  ghost predicate Enters(s: State, id: nat, phase: Phase, t: State) {
    id in s.live && t.live == s.live[id := Reservation(s.live[id].bytes, phase)]
  }

  /** What a reservation goes through. */
  ghost predicate Handles(s: State, step: Step, t: State) {
    match step
    case Reserve(bytes) =>
      var size := if bytes > 0 then bytes else 0;
      var sum := if s.reservedBytes + size > MAX64 then s.reservedBytes + size - 0x1_0000_0000_0000_0000
                 else s.reservedBytes + size;
      && SameItems(s, t) && SameStages(s, t) && t.resolved == s.resolved
      && (0 <= s.reservedBytes <= MAX64 ==>
            if s.accepting && !s.maintenance.Vacuum? && s.reservedCount < s.options.queueCount
               && sum <= s.options.queueBytes
            then && t.reservedCount == s.reservedCount + 1 && t.reservedBytes == sum
                 && t.live == s.live[s.issued := Reservation(size, Open)] && t.issued == s.issued + 1
            else t == s)
    case ClaimCommit(id, x) =>
      && SameItems(s, t) && SameStages(s, t) && SameCounters(s, t)
      && Enters(s, id, Committing(x), t) && t.resolved == s.resolved + [id]
    case Send(id) =>
      && SameStages(s, t) && SameCounters(s, t) && t.writer == s.writer && t.written == s.written && t.resolved == s.resolved
      && Enters(s, id, Enqueued, t) && s.live[id].phase.Committing?
      && t.writes == s.writes + [Item(id, s.live[id].phase.x)]
      && t.committed == s.committed + [Item(id, s.live[id].phase.x)]
    case ClaimCancel(id) =>
      && SameItems(s, t) && SameStages(s, t) && SameCounters(s, t)
      && Enters(s, id, Cancelling, t) && t.resolved == s.resolved + [id]
    case ReleaseCancelled(id) => SameItems(s, t) && SameStages(s, t) && Releases(s, id, t) && t.resolved == s.resolved
    case _ => true
  }

  /** What the writer does with the first queued item, the batch, and the batch it has written. */
  ghost predicate Carries(s: State, step: Step, t: State) {
    && SameStages(s, t) && t.committed == s.committed && t.resolved == s.resolved
    && match step
       case ReleaseWritten =>
         && s.writer.Releasing? && s.writer.released < |s.writer.batch|
         && Releases(s, s.writer.batch[s.writer.released].reservation, t)
         && t.writes == s.writes && t.written == s.written
         && (s.writer.released + 1 == |s.writer.batch| ==> t.writer.Idle?)
         && (s.writer.released + 1 < |s.writer.batch| ==> t.writer == Releasing(s.writer.batch, s.writer.released + 1))
       case WriteBatch =>
         && s.writer.Collecting? && t.live == s.live && SameCounters(s, t) && t.writes == s.writes
         && t.written == s.written + s.writer.batch && t.writer == Releasing(s.writer.batch, 0)
       case _ =>
         && s.writes != [] && Enters(s, s.writes[0].reservation, Batched, t) && SameCounters(s, t)
         && s.writes == [s.writes[0]] + t.writes && t.written == s.written
         && t.writer == Collecting((if s.writer.Collecting? then s.writer.batch else []) + [s.writes[0]])
  }

  /** How maintenance and closing go on, one stage at a time. */
  ghost predicate Proceeds(s: State, step: Step, t: State) {
    && t.options == s.options && t.live == s.live && SameCounters(s, t) && t.resolved == s.resolved
    && t.writes == s.writes && t.committed == s.committed && t.written == s.written
    && (if step.ExitWriter? then t.writer.Exited? else t.writer == s.writer)
    && (if step.RefuseIntake? then !t.accepting else t.accepting == s.accepting)
    && (if step.BeginMaintenance? then t.maintenance == step.kind
        else if step.EndMaintenance? then t.maintenance.NoMaintenance?
        else t.maintenance == s.maintenance)
    && (if step.EndMaintenance? then !t.vacuumSawZero else t.vacuumSawZero == (s.vacuumSawZero || step.VacuumSeesZero?))
    && (match step
        case RefuseIntake => s.stage.Running? && t.stage.Refusing?
        case SignalClosing => s.stage.Refusing? && t.stage.ClosingSignalled?
        case CloseSeesZero => s.stage.ClosingSignalled? && s.reservedCount == 0 && t.stage.SawZero?
        case SignalStop => s.stage.SawZero? && t.stage.StopSignalled?
        case CloseDatabase => s.stage.StopSignalled? && s.writer.Exited? && t.stage.DatabaseClosed?
        case _ => t.stage == s.stage)
  }

  /** Short of an overflow the sum is compared as it is. */
  lemma AdmitsExactly(s: State, requested: int)
    ensures Clamped(requested) == if requested < 0 then 0 else requested
    ensures -MAX64 <= s.reservedBytes && s.reservedBytes + Clamped(requested) <= MAX64 ==>
              (Admits(s, Clamped(requested)) <==>
                 && s.accepting && !s.maintenance.Vacuum? && s.reservedCount < s.options.queueCount
                 && s.reservedBytes + Clamped(requested) <= s.options.queueBytes)
  {
  }

  lemma HandlesExactly(s: State, step: Step)
    requires Inv(s) && Enabled(s, step)
    ensures Handles(s, step, Next(s, step))
  {
    match step
    case Reserve(bytes) => WrapsHere(s.reservedBytes, if bytes > 0 then bytes else 0);
    case Send(id) => CommitFindsRoom(s, id);
    case ReleaseCancelled(id) => ReleasesExactly(s, id);
    case _ =>
  }

  lemma WrapsHere(a: int, b: int)
    requires 0 <= b <= MAX64
    ensures 0 <= a <= MAX64 ==> Wrap64(a + b) == if a + b > MAX64 then a + b - 0x1_0000_0000_0000_0000 else a + b
    ensures b <= a <= MAX64 ==> Wrap64(a - b) == a - b
  {
  }

  lemma ReleasesExactly(s: State, id: nat)
    requires Tallied(s) && id in s.live
    ensures Releases(s, id, Released(s, id))
  {
    ReleaseKeepsTally(s, id);
    if 0 <= s.live[id].bytes <= s.reservedBytes <= MAX64 {
      WrapsHere(s.reservedBytes, s.live[id].bytes);
    }
  }

  lemma CarriesExactly(s: State, step: Step)
    requires Inv(s) && Enabled(s, step)
    requires step.TakeFirst? || step.TakeMore? || step.WriteBatch? || step.ReleaseWritten?
    ensures Carries(s, step, Next(s, step))
  {
    if step.ReleaseWritten? {
      var id := s.writer.batch[s.writer.released].reservation;
      assert Batch(s.writer)[0].reservation == id && id in s.live;
      ReleasesExactly(s, id);
      hide Releases;
    }
    hide Wrap64;
  }

  lemma ProceedsExactly(s: State, step: Step)
    requires Inv(s) && Enabled(s, step)
    requires step.ExitWriter? || step.BeginMaintenance? || step.VacuumSeesZero? || step.EndMaintenance?
             || step.RefuseIntake? || step.SignalClosing? || step.CloseSeesZero? || step.SignalStop? || step.CloseDatabase?
    ensures Proceeds(s, step, Next(s, step))
  {
  }

  ghost predicate IsRun(s: State, steps: seq<Step>, end: State)
    decreases |steps|
  {
    if steps == [] then end == s
    else Enabled(s, steps[0]) && IsRun(Next(s, steps[0]), steps[1..], end)
  }

  lemma {:induction false} RunKeepsInv(s: State, steps: seq<Step>, end: State)
    requires Inv(s) && IsRun(s, steps, end)
    ensures Inv(end)
    decreases |steps|
  {
    if steps != [] {
      NextKeepsInv(s, steps[0]);
      RunKeepsInv(Next(s, steps[0]), steps[1..], end);
    }
  }

  /**
    In every reachable state: the count is the number of unreleased
    reservations and within the queue's capacity, no reservation was resolved
    twice, nothing waits in the queue-full state, and every committed item has
    been written, is in the batch being collected, or is queued, in commit order.
   */
  lemma Accounting(options: Options, steps: seq<Step>, end: State)
    requires Usable(options) && IsRun(Opened(options), steps, end)
    ensures end.reservedCount == |end.live| <= end.options.queueCount
    ensures forall i, j :: 0 <= i < j < |end.resolved| ==> end.resolved[i] != end.resolved[j]
    ensures forall id :: id in end.live && end.live[id].phase.Committing? ==> |end.writes| < end.options.queueCount
    ensures forall id :: id in end.live ==> !end.live[id].phase.Refused?
    ensures end.committed == end.written + Unwritten(end.writer) + end.writes
  {
    RunKeepsInv(Opened(options), steps, end);
    forall id | id in end.live && end.live[id].phase.Committing? ensures |end.writes| < end.options.queueCount {
      CommitFindsRoom(end, id);
    }
  }

  lemma ItemsHaveOwners(live: map<nat, Reservation>, items: seq<Item>, phase: Phase)
    requires Owned(live, items, phase)
    ensures items != [] ==> live != map[]
  {
    if items != [] {
      assert items[0].reservation in live;
    }
  }

  /**
    When Close signals stop, every committed item has gone to the writer
    exactly once, in commit order, with the exchange its caller passed, and
    nothing is queued, batched or reserved; this is still so when the database
    closes. A VACUUM that saw zero finds
    no reservation until its maintenance ends.
   */
  lemma DrainedBeforeStop(options: Options, steps: seq<Step>, end: State)
    requires Usable(options) && IsRun(Opened(options), steps, end)
    ensures end.stage.StopSignalled? || end.stage.DatabaseClosed? || end.vacuumSawZero ==>
              && end.live == map[] && end.writes == [] && Batch(end.writer) == []
              && end.written == end.committed == HandedOver(steps)
    ensures end.stage.StopSignalled? || end.stage.DatabaseClosed? || end.vacuumSawZero ==>
              forall i :: 0 <= i < |steps| && steps[i].ClaimCommit? ==> Item(steps[i].id, steps[i].x) in end.written
    ensures end.stage.StopSignalled? || end.stage.DatabaseClosed? ==> !end.accepting
  {
    RunKeepsInv(Opened(options), steps, end);
    CommittedAsCalled(options, steps, end);
    ItemsHaveOwners(end.live, end.writes, Enqueued);
    ItemsHaveOwners(end.live, Batch(end.writer), Batched);
    assert end.reservedCount == 0 ==> end.live.Keys == {};
  }

  // ------------------------------------------------------------------
  // What reaches the writer, read off the calls
  // ------------------------------------------------------------------

  /** The step is the call of Commit or Cancel that resolves the reservation. */
  predicate Resolves(step: Step, id: nat) {
    (step.ClaimCommit? && step.id == id) || (step.ClaimCancel? && step.id == id)
  }

  /** The exchange the reservation's commit was called with. */
  function Given(steps: seq<Step>, id: nat): Option<Exchange>
    decreases |steps|
  {
    if steps == [] then None
    else
      var last := steps[|steps| - 1];
      if last.ClaimCommit? && last.id == id then Some(last.x) else Given(steps[..|steps| - 1], id)
  }

  /** The items of the commits in the order of their sends: for each the exchange its caller passed. */
  function HandedOver(steps: seq<Step>): seq<Item>
    decreases |steps|
  {
    if steps == [] then []
    else
      var n := |steps| - 1;
      var given := if steps[n].Send? then Given(steps[..n], steps[n].id) else None;
      HandedOver(steps[..n]) + if given.Some? then [Item(steps[n].id, given.value)] else []
  }

  lemma GivenAppended(steps: seq<Step>, step: Step, id: nat)
    ensures Given(steps + [step], id)
         == if step.ClaimCommit? && step.id == id then Some(step.x) else Given(steps, id)
  {
    assert (steps + [step])[..|steps|] == steps;
  }

  lemma HandedOverAppended(steps: seq<Step>, step: Step)
    ensures HandedOver(steps + [step])
         == HandedOver(steps) + if step.Send? && Given(steps, step.id).Some? then [Item(step.id, Given(steps, step.id).value)] else []
  {
    assert (steps + [step])[..|steps|] == steps;
  }

  /** What the calls so far say of a state. */
  ghost predicate AsCalled(past: seq<Step>, s: State) {
    && s.committed == HandedOver(past)
    && (forall id :: id in s.live && s.live[id].phase.Committing? ==> Given(past, id) == Some(s.live[id].phase.x))
    && (forall i :: 0 <= i < |past| && (past[i].ClaimCommit? || past[i].ClaimCancel?) ==> past[i].id in s.resolved)
    && (forall i :: 0 <= i < |past| && past[i].ClaimCommit? ==> Underway(s, past[i].id, past[i].x))
  }

  /** A commit that won is being sent or has been. */
  ghost predicate Underway(s: State, id: nat, x: Exchange) {
    (id in s.live && s.live[id].phase == Committing(x)) || Item(id, x) in s.committed
  }

  lemma StaysUnderway(past: seq<Step>, s: State, step: Step, id: nat, x: Exchange)
    requires CountInv(s) && AsCalled(past, s) && Enabled(s, step) && Underway(s, id, x)
    ensures Underway(Next(s, step), id, x)
  {
    if Item(id, x) in s.committed {
      assert Item(id, x) in Next(s, step).committed;
    } else if step == Send(id) {
      CommitFindsRoom(s, id);
    } else if step.ReleaseWritten? {
      assert Batch(s.writer)[0].reservation == s.writer.batch[s.writer.released].reservation;
    } else if step.TakeFirst? || step.TakeMore? {
      assert s.writes[0].reservation in s.live && s.live[s.writes[0].reservation].phase == Enqueued;
    }
  }

  lemma StepAsCalled(past: seq<Step>, s: State, step: Step)
    requires CountInv(s) && AsCalled(past, s) && Enabled(s, step)
    ensures AsCalled(past + [step], Next(s, step))
  {
    HandedOverAppended(past, step);
    var s' := Next(s, step);
    forall id | id in s'.live && s'.live[id].phase.Committing?
      ensures Given(past + [step], id) == Some(s'.live[id].phase.x)
    {
      GivenAppended(past, step, id);
    }
    if step.Send? {
      CommitFindsRoom(s, step.id);
    }
    assert forall id :: id in s.resolved ==> id in s'.resolved;
    forall i | 0 <= i < |past + [step]| && (past + [step])[i].ClaimCommit?
      ensures Underway(s', (past + [step])[i].id, (past + [step])[i].x)
    {
      if i < |past| {
        StaysUnderway(past, s, step, past[i].id, past[i].x);
      }
    }
  }

  /** No later call resolves a reservation that is resolved. */
  lemma StepResolvesOnce(past: seq<Step>, s: State, step: Step, i: nat, id: nat)
    requires CountInv(s) && AsCalled(past, s) && Enabled(s, step)
    requires i < |past| && Resolves(past[i], id)
    ensures !Resolves(step, id)
  {
  }

  ghost predicate ResolvedOnce(steps: seq<Step>) {
    forall i, j, id :: 0 <= i < j < |steps| && Resolves(steps[i], id) ==> !Resolves(steps[j], id)
  }

  lemma {:induction false} RunAsCalled(past: seq<Step>, s: State, steps: seq<Step>, end: State)
    requires Inv(s) && AsCalled(past, s) && ResolvedOnce(past) && IsRun(s, steps, end)
    ensures AsCalled(past + steps, end) && ResolvedOnce(past + steps)
    decreases |steps|
  {
    if steps == [] {
      assert past + steps == past;
    } else {
      NextKeepsInv(s, steps[0]);
      StepAsCalled(past, s, steps[0]);
      forall i, id | 0 <= i < |past| && Resolves(past[i], id) ensures !Resolves(steps[0], id) {
        StepResolvesOnce(past, s, steps[0], i, id);
      }
      RunAsCalled(past + [steps[0]], Next(s, steps[0]), steps[1..], end);
      assert (past + [steps[0]]) + steps[1..] == past + steps;
    }
  }

  /**
    Over any run every reservation is resolved by one call at most, and what has
    been committed is, in order and each once, what the callers of the resolving
    commits passed.
   */
  lemma CommittedAsCalled(options: Options, steps: seq<Step>, end: State)
    requires Usable(options) && IsRun(Opened(options), steps, end)
    ensures end.committed == HandedOver(steps)
    ensures ResolvedOnce(steps)
    ensures forall i :: 0 <= i < |steps| && steps[i].ClaimCommit? ==> Underway(end, steps[i].id, steps[i].x)
  {
    RunAsCalled([], Opened(options), steps, end);
    assert [] + steps == steps;
  }

  // ------------------------------------------------------------------
  // Bytes, and where the wrapping sum breaks them
  // ------------------------------------------------------------------

  /** The bytes of the live reservations numbered below `n`. */
  ghost function Total(live: map<nat, Reservation>, n: nat): int {
    if n == 0 then 0 else Total(live, n - 1) + (if n - 1 in live then live[n - 1].bytes else 0)
  }

  ghost predicate BytesInv(s: State) {
    && (forall id :: id in s.live ==> 0 <= s.live[id].bytes)
    && s.reservedBytes == Total(s.live, s.issued)
    && s.reservedBytes <= s.options.queueBytes
  }

  /** A reservation's sum does not leave int64. */
  predicate SumFits(s: State, bytes: int) {
    s.reservedBytes + Clamped(bytes) <= MAX64
  }

  lemma {:induction false} TotalSame(live: map<nat, Reservation>, live': map<nat, Reservation>, n: nat)
    requires forall id :: id < n ==> (id in live <==> id in live')
    requires forall id :: id < n && id in live ==> live[id].bytes == live'[id].bytes
    ensures Total(live, n) == Total(live', n)
  {
    if n > 0 {
      TotalSame(live, live', n - 1);
    }
  }

  lemma {:induction false} TotalRemove(live: map<nat, Reservation>, id: nat, n: nat)
    requires id in live && id < n
    requires forall i :: i in live ==> 0 <= live[i].bytes
    ensures Total(live - {id}, n) == Total(live, n) - live[id].bytes
    ensures live[id].bytes <= Total(live, n)
  {
    if n - 1 == id {
      TotalSame(live, live - {id}, n - 1);
      TotalPositive(live, n - 1);
    } else {
      TotalRemove(live, id, n - 1);
    }
  }

  lemma {:induction false} TotalPositive(live: map<nat, Reservation>, n: nat)
    requires forall i :: i in live ==> 0 <= live[i].bytes
    ensures 0 <= Total(live, n)
  {
    if n > 0 {
      TotalPositive(live, n - 1);
    }
  }

  lemma WrapFacts(x: int)
    ensures -MAX64 - 1 <= x <= MAX64 ==> Wrap64(x) == x
    ensures MAX64 < x <= 2 * MAX64 ==> Wrap64(x) == x - 0x1_0000_0000_0000_0000 < 0
  {
  }

  /**
    The byte bound survives a Reserve exactly when it is refused for another
    reason or its sum stays within int64: a sum that wraps is negative and
    always passes the test.
   */
  lemma ReserveKeepsBytes(s: State, bytes: int)
    requires CountInv(s) && BytesInv(s) && Enabled(s, Reserve(bytes))
    ensures BytesInv(Next(s, Reserve(bytes)))
       <==> !s.accepting || s.maintenance.Vacuum? || s.reservedCount >= s.options.queueCount || SumFits(s, bytes)
  {
    TotalPositive(s.live, s.issued);
    var b := Clamped(bytes);
    WrapFacts(s.reservedBytes + b);
    if Admits(s, b) {
      var live' := s.live[s.issued := Reservation(b, Open)];
      TotalSame(s.live, live', s.issued);
      assert Total(live', s.issued + 1) == Total(s.live, s.issued) + b;
    }
  }

  lemma ReleaseKeepsBytes(s: State, id: nat)
    requires Tallied(s) && BytesInv(s) && id in s.live
    ensures BytesInv(Released(s, id))
    ensures s.live[id].bytes <= s.reservedBytes
  {
    TotalRemove(s.live, id, s.issued);
    TotalPositive(s.live - {id}, s.issued);
  }

  lemma NextKeepsBytes(s: State, step: Step)
    requires CountInv(s) && BytesInv(s) && Enabled(s, step)
    requires step.Reserve? ==> SumFits(s, step.bytes)
    ensures BytesInv(Next(s, step))
  {
    var s' := Next(s, step);
    if step.Reserve? {
      ReserveKeepsBytes(s, step.bytes);
    } else if step.ReleaseRefused? || step.ReleaseCancelled? {
      ReleaseKeepsBytes(s, step.id);
    } else if step.ReleaseWritten? {
      assert Batch(s.writer)[0] == s.writer.batch[s.writer.released];
      ReleaseKeepsBytes(s, s.writer.batch[s.writer.released].reservation);
    } else {
      TotalSame(s.live, s'.live, s.issued);
    }
  }

  /** The byte bound holds now and after every step of the run. */
  ghost predicate BytesAlways(s: State, steps: seq<Step>, end: State)
    requires IsRun(s, steps, end)
    decreases |steps|
  {
    BytesInv(s) && (steps != [] ==> BytesAlways(Next(s, steps[0]), steps[1..], end))
  }

  /** Every Reserve the run admits has a sum that stays within int64. */
  predicate SumsFit(s: State, steps: seq<Step>, end: State)
    requires IsRun(s, steps, end)
    decreases |steps|
  {
    steps != [] ==>
      && (steps[0].Reserve? && Admits(s, Clamped(steps[0].bytes)) ==> SumFits(s, steps[0].bytes))
      && SumsFit(Next(s, steps[0]), steps[1..], end)
  }

  lemma StepKeepsBytesExactly(s: State, step: Step)
    requires CountInv(s) && BytesInv(s) && Enabled(s, step)
    ensures BytesInv(Next(s, step))
       <==> (step.Reserve? && Admits(s, Clamped(step.bytes)) ==> SumFits(s, step.bytes))
  {
    if step.Reserve? {
      ReserveKeepsBytes(s, step.bytes);
      WrapFacts(s.reservedBytes + Clamped(step.bytes));
      TotalPositive(s.live, s.issued);
    } else {
      NextKeepsBytes(s, step);
    }
  }

  /** Over a whole run the byte bound holds throughout exactly when every admitted sum stays within int64. */
  lemma {:induction false} BytesHoldExactly(s: State, steps: seq<Step>, end: State)
    requires Inv(s) && BytesInv(s) && IsRun(s, steps, end)
    ensures BytesAlways(s, steps, end) <==> SumsFit(s, steps, end)
    decreases |steps|
  {
    if steps != [] {
      StepKeepsBytesExactly(s, steps[0]);
      NextKeepsInv(s, steps[0]);
      if BytesInv(Next(s, steps[0])) {
        BytesHoldExactly(Next(s, steps[0]), steps[1..], end);
      }
    }
  }

  /** Every Reserve of the run asks for a size that cannot push the sum past int64. */
  predicate ModestSizes(options: Options, steps: seq<Step>) {
    forall i :: 0 <= i < |steps| && steps[i].Reserve? ==> Clamped(steps[i].bytes) <= MAX64 - options.queueBytes
  }

  lemma ModestRest(options: Options, steps: seq<Step>)
    requires steps != [] && ModestSizes(options, steps)
    ensures ModestSizes(options, steps[1..])
    ensures steps[0].Reserve? ==> Clamped(steps[0].bytes) <= MAX64 - options.queueBytes
  {
    assert forall i :: 0 <= i < |steps[1..]| ==> steps[1..][i] == steps[i + 1];
  }

  lemma {:induction false} RunKeepsBytes(s: State, steps: seq<Step>, end: State)
    requires Inv(s) && BytesInv(s) && IsRun(s, steps, end)
    requires ModestSizes(s.options, steps)
    ensures Inv(end) && BytesInv(end)
    decreases |steps|
  {
    if steps != [] {
      ModestRest(s.options, steps);
      NextKeepsBytes(s, steps[0]);
      NextKeepsInv(s, steps[0]);
      RunKeepsBytes(Next(s, steps[0]), steps[1..], end);
    }
  }

  /**
    With sizes of at most the int64 maximum less the byte capacity, the byte
    counter is the sum over unreleased reservations and within capacity in
    every reachable state, and no release ever reaches the clamps.
   */
  lemma BytesAccounting(options: Options, steps: seq<Step>, end: State)
    requires Usable(options) && IsRun(Opened(options), steps, end) && ModestSizes(options, steps)
    ensures end.reservedBytes == Total(end.live, end.issued) <= end.options.queueBytes
    ensures forall id :: id in end.live ==> end.reservedCount >= 1 && end.live[id].bytes <= end.reservedBytes
  {
    RunKeepsBytes(Opened(options), steps, end);
    assert Tallied(end);
    forall id | id in end.live ensures end.reservedCount >= 1 && end.live[id].bytes <= end.reservedBytes {
      ReleaseKeepsBytes(end, id);
      ReleaseKeepsTally(end, id);
    }
  }

  /** A saturated size after any other reservation wraps the sum and is admitted. */
  lemma SaturatedSizeIsAdmitted(options: Options)
    requires Usable(options) && options.queueCount >= 2
    ensures var s := Next(Opened(options), Reserve(1)); var s' := Next(s, Reserve(MAX64));
            && BytesInv(s) && Admits(s, MAX64)
            && Total(s'.live, s'.issued) == MAX64 + 1 > options.queueBytes
            && s'.reservedBytes == -MAX64 - 1
  {
    var s := Next(Opened(options), Reserve(1));
    assert s.live == map[0 := Reservation(1, Open)] && s.issued == 1;
    assert Total(s.live, 1) == Total(s.live, 0) + 1;
    var s' := Next(s, Reserve(MAX64));
    assert s'.live == map[0 := Reservation(1, Open), 1 := Reservation(MAX64, Open)] && s'.issued == 2;
    assert Total(s'.live, 2) == Total(s'.live, 1) + MAX64;
    assert Total(s'.live, 1) == Total(s'.live, 0) + 1;
  }
}
