/** The SQLite repository object: admission, the writer's loops and the drains (internal/sqlite/repository.go). */
module Persistence {
  import opened Common
  import Capture
  import opened ReservationProtocol

  class Repository {
    const options: Options
    var accepting: bool
    var maintenance: Maintenance
    var reservedCount: int
    var reservedBytes: int
    var writes: seq<Item>
    var writer: Writer
    var stage: Stage
    var live: map<nat, Reservation>
    var issued: nat
    ghost var resolved: seq<nat>
    ghost var committed: seq<Item>
    ghost var written: seq<Item>
    ghost var vacuumSawZero: bool

    ghost function View(): State
      reads this
    {
      State(options, accepting, maintenance, reservedCount, reservedBytes, writes, writer, stage,
            live, issued, resolved, committed, written, vacuumSawZero)
    }

    ghost predicate Valid()
      reads this
    {
      Inv(View())
    }

    constructor (options: Options)
      requires Usable(options)
      ensures Valid() && View() == Opened(options)
    {
      this.options := options;
      accepting, maintenance, reservedCount, reservedBytes := true, NoMaintenance, 0, 0;
      writes, writer, stage := [], Idle, Running;
      live, issued := map[], 0;
      resolved, committed, written, vacuumSawZero := [], [], [], false;
    }

    /** Fills in a reservation that passed the admission tests. */
    method Enter(bytes: int) returns (id: nat)
      modifies this`reservedCount, this`reservedBytes, this`live, this`issued
      ensures View() == Admitted(old(View()), bytes)
      ensures id == old(issued) && id in live && live[id] == Reservation(bytes, Open)
      ensures reservedCount == old(reservedCount) + 1
    {
      hide Wrap64;
      reservedCount := reservedCount + 1;
      reservedBytes := Wrap64(reservedBytes + bytes);
      live := live[issued := Reservation(bytes, Open)];
      id := issued;
      issued := issued + 1;
    }

    method Reserve(requested: int) returns (reservation: Option<nat>)
      requires Valid() && -MAX64 - 1 <= requested <= MAX64
      modifies this`reservedCount, this`reservedBytes, this`live, this`issued
      ensures Valid() && View() == Next(old(View()), Step.Reserve(requested))
      ensures reservation == if Admits(old(View()), Clamped(requested)) then Some(old(issued)) else None
      ensures var bytes := if requested < 0 then 0 else requested;
              old(reservedBytes) + bytes <= MAX64 && -MAX64 <= old(reservedBytes) ==>
                (reservation.Some? <==>
                   && old(accepting) && !old(maintenance).Vacuum? && old(reservedCount) < options.queueCount
                   && old(reservedBytes) + bytes <= options.queueBytes)
      ensures reservation.Some? ==>
                && reservation.value in live && live[reservation.value].phase == Open
                && live[reservation.value].bytes == (if requested < 0 then 0 else requested)
                && reservedCount == old(reservedCount) + 1
    {
      ghost var s := View();
      NextKeepsInv(s, Step.Reserve(requested));
      AdmitsExactly(s, requested);
      hide Inv, Wrap64, Enabled;
      var bytes := requested;
      if bytes < 0 {
        bytes := 0;
      }
      var refused := !accepting || maintenance.Vacuum? || reservedCount >= options.queueCount
                     || Wrap64(reservedBytes + bytes) > options.queueBytes;
      assert bytes == Clamped(requested) && refused == !Admits(s, bytes);
      hide Admits, Clamped;
      if refused {
        return None;
      }
      hide Admitted;
      var id := Enter(bytes);
      reservation := Some(id);
    }

    /** Lowers both counters and clamps them; the reservation is gone. */
    method Release(id: nat)
      requires id in live
      modifies this`reservedCount, this`reservedBytes, this`live
      ensures View() == Released(old(View()), id)
      ensures live == old(live) - {id}
      ensures reservedCount == if old(reservedCount) >= 1 then old(reservedCount) - 1 else 0
    {
      reservedCount := reservedCount - 1;
      reservedBytes := Wrap64(reservedBytes - live[id].bytes);
      if reservedCount < 0 {
        reservedCount := 0;
      }
      if reservedBytes < 0 {
        reservedBytes := 0;
      }
      live := live - {id};
    }

    /** The compare-and-swap of a commit that wins it. */
    method Claim(id: nat, x: Capture.Exchange)
      requires Valid() && InPhase(View(), id, Open)
      modifies this`live, this`resolved
      ensures Valid() && View() == Next(old(View()), ClaimCommit(id, x))
      ensures id in live && live[id].phase == Committing(x) && resolved == old(resolved) + [id]
    {
      NextKeepsInv(View(), ClaimCommit(id, x));
      hide Inv, Wrap64;
      resolved := resolved + [id];
      live := live[id := live[id].(phase := Committing(x))];
    }

    /** The non-blocking send; its default branch, which would release and report a full queue, is dead. */
    method SendItem(id: nat)
      requires Valid() && id in live && live[id].phase.Committing?
      modifies this`live, this`writes, this`committed
      ensures Valid() && View() == Next(old(View()), Send(id))
      ensures writes == old(writes) + [Item(id, old(live[id].phase.x))]
      ensures committed == old(committed) + [Item(id, old(live[id].phase.x))]
    {
      NextKeepsInv(View(), Send(id));
      CommitFindsRoom(View(), id);
      hide Inv, Wrap64;
      if |writes| < options.queueCount {
        var item := Item(id, live[id].phase.x);
        writes := writes + [item];
        committed := committed + [item];
        live := live[id := live[id].(phase := Enqueued)];
      } else {
        assert false;
      }
    }

    /** The two steps of a commit. Only the first caller of Commit or Cancel wins the swap. */
    method Commit(id: nat, x: Capture.Exchange) returns (full: bool)
      requires Valid()
      modifies this
      ensures Valid() && !full
      ensures if InPhase(old(View()), id, Open)
              then View() == Next(Next(old(View()), ClaimCommit(id, x)), Send(id))
              else View() == old(View())
      ensures old(id in live && live[id].phase == Open) ==>
                && writes == old(writes) + [Item(id, x)] && committed == old(committed) + [Item(id, x)]
                && resolved == old(resolved) + [id]
    {
      full := false;
      if id !in live || live[id].phase != Open {
        return;
      }
      Claim(id, x);
      SendItem(id);
    }

    method Cancel(id: nat)
      requires Valid()
      modifies this
      ensures Valid()
      ensures if InPhase(old(View()), id, Open)
              then View() == Next(Next(old(View()), ClaimCancel(id)), ReleaseCancelled(id))
              else View() == old(View())
      ensures old(id in live && live[id].phase == Open) ==>
                && id !in live && reservedCount == old(reservedCount) - 1 && resolved == old(resolved) + [id]
                && writes == old(writes) && committed == old(committed)
    {
      if id !in live || live[id].phase != Open {
        return;
      }
      NextKeepsInv(View(), ClaimCancel(id));
      resolved := resolved + [id];
      live := live[id := live[id].(phase := Cancelling)];
      NextKeepsInv(View(), ReleaseCancelled(id));
      Release(id);
    }

    /** The writer receives one more item; the first one starts a batch. */
    method Receive()
      requires Valid() && writes != []
      requires writer.Idle? || (writer.Collecting? && |writer.batch| < options.batchSize)
      modifies this`writes, this`writer, this`live
      ensures Valid()
      ensures View() == Next(old(View()), if old(writer).Idle? then TakeFirst else TakeMore)
      ensures writer == Collecting((if old(writer).Idle? then [] else old(writer).batch) + [old(writes)[0]])
      ensures writes == old(writes)[1..]
    {
      ghost var step := if writer.Idle? then TakeFirst else TakeMore;
      ghost var s := View();
      NextKeepsInv(s, step);
      hide Inv, Wrap64;
      var item := writes[0];
      if item.reservation in live {
        live := live[item.reservation := live[item.reservation].(phase := Batched)];
      }
      writer := Collecting(if writer.Idle? then [item] else writer.batch + [item]);
      writes := writes[1..];
      assert View() == Next(s, step);
    }

    lemma OneMore(batch: seq<Item>, writes: seq<Item>)
      requires writes != []
      ensures (batch + [writes[0]]) + writes[1..] == batch + writes
      ensures [] + writes == writes
    {
    }

    /**
      Collects a batch of at most the batch size, and fewer whenever the timer
      fires or closing is signalled, which can happen at any moment.
     */
    method CollectBatch(stopEarly: nat)
      requires Valid() && writer.Idle? && writes != []
      modifies this`writes, this`writer, this`live
      ensures Valid() && writer.Collecting?
      ensures 1 <= |writer.batch| <= options.batchSize
      ensures writer.batch + writes == old(writes)
    {
      OneMore([], writes);
      Receive();
      var rounds := 0;
      while |writer.batch| < options.batchSize && writes != [] && rounds < stopEarly
        invariant Valid() && writer.Collecting?
        invariant 1 <= |writer.batch| <= options.batchSize
        invariant writer.batch + writes == old(writes)
        decreases |writes|
      {
        OneMore(writer.batch, writes);
        Receive();
        rounds := rounds + 1;
      }
    }

    /** Releases the next item of a written batch. */
    method ReleaseNext()
      requires Valid() && writer.Releasing? && writer.released < |writer.batch|
      modifies this`reservedCount, this`reservedBytes, this`live, this`writer
      ensures Valid() && View() == Next(old(View()), ReleaseWritten)
      ensures live == old(live) - {old(writer).batch[old(writer).released].reservation}
      ensures reservedCount == old(reservedCount) - 1
      ensures writer == if old(writer).released + 1 == |old(writer).batch| then Idle
                        else Releasing(old(writer).batch, old(writer).released + 1)
    {
      NextKeepsInv(View(), ReleaseWritten);
      var n := writer.released;
      var id := writer.batch[n].reservation;
      assert Batch(writer)[0].reservation == id;
      ReleaseKeepsTally(View(), id);
      hide Inv, Tallied, Lined, Wrap64;
      Release(id);
      writer := if n + 1 == |writer.batch| then Idle else Releasing(writer.batch, n + 1);
    }

    lemma OwnersGrow(batch: seq<Item>, n: nat)
      requires n < |batch|
      ensures Owners(batch[..n + 1]) == Owners(batch[..n]) + {batch[n].reservation}
      ensures batch[..|batch|] == batch
    {
    }

    lemma OwnersOfNone(batch: seq<Item>)
      ensures Owners(batch[..0]) == {}
    {
    }

    /** The transaction is over, one way or the other. */
    method EndTransaction()
      requires Valid() && writer.Collecting?
      modifies this`writer, this`written
      ensures Valid() && View() == Next(old(View()), Step.WriteBatch)
      ensures written == old(written) + old(writer.batch)
      ensures writer == Releasing(old(writer.batch), 0) && |writer.batch| >= 1
    {
      NextKeepsInv(View(), Step.WriteBatch);
      assert |writer.batch| >= 1;
      hide Inv;
      written := written + writer.batch;
      writer := Releasing(writer.batch, 0);
    }

    /** Releases every item of the batch just written, whether the transaction succeeded or not. */
    method ReleaseBatch()
      requires Valid() && writer.Collecting?
      modifies this
      ensures Valid() && writer.Idle? && writes == old(writes)
      ensures written == old(written) + old(writer.batch)
      ensures reservedCount == old(reservedCount) - |old(writer.batch)|
      ensures live == old(live) - Owners(old(writer.batch))
    {
      hide Inv, Next, Enabled, Owners;
      ghost var batch := writer.batch;
      EndTransaction();
      OwnersOfNone(batch);
      while writer.Releasing?
        invariant Valid() && writes == old(writes) && written == old(written) + batch
        invariant writer.Idle? || (writer.Releasing? && writer.batch == batch && writer.released < |batch|)
        invariant live == old(live) - Owners(if writer.Idle? then batch else batch[..writer.released])
        invariant reservedCount == old(reservedCount) - (if writer.Idle? then |batch| else writer.released)
        decreases if writer.Releasing? then |batch| - writer.released else -1
      {
        OwnersGrow(batch, writer.released);
        ReleaseNext();
      }
    }

    method BeginMaintenance(kind: Maintenance) returns (busy: bool)
      requires Valid() && !kind.NoMaintenance?
      modifies this`maintenance
      ensures Valid() && busy == !old(maintenance).NoMaintenance?
      ensures View() == if busy then old(View()) else Next(old(View()), Step.BeginMaintenance(kind))
      ensures maintenance == if busy then old(maintenance) else kind
    {
      busy := !maintenance.NoMaintenance?;
      if !busy {
        maintenance := kind;
      }
    }

    method EndMaintenance()
      requires Valid() && !maintenance.NoMaintenance?
      modifies this`maintenance, this`vacuumSawZero
      ensures Valid() && View() == Next(old(View()), Step.EndMaintenance)
      ensures maintenance.NoMaintenance?
    {
      NextKeepsInv(View(), Step.EndMaintenance);
      maintenance := NoMaintenance;
      vacuumSawZero := false;
    }

    /** One look of the wait loop of VACUUM. */
    method SeesZero() returns (zero: bool)
      requires Valid() && maintenance.Vacuum?
      modifies this`vacuumSawZero
      ensures Valid() && zero == (reservedCount == 0)
      ensures View() == if zero then Next(old(View()), VacuumSeesZero) else old(View())
    {
      zero := reservedCount == 0;
      if zero {
        vacuumSawZero := true;
      }
    }

    /** The first section of Close: nothing is admitted from here on. */
    method RefuseIntake()
      requires Valid() && stage.Running?
      modifies this`accepting, this`stage
      ensures Valid() && View() == Next(old(View()), Step.RefuseIntake)
      ensures !accepting
    {
      accepting, stage := false, Refusing;
    }
  }
}
