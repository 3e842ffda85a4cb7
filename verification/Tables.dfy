/** The two SQLite tables and what is read back from them (internal/sqlite/repository.go). */
module Tables {
  import opened Common
  import opened Ordering
  import opened Capture

  /** `metadata` is what the JSON column decodes to; payloads live in columns of their own. */
  datatype Row = Row(metadata: Exchange, requestBody: Bytes, responseBody: Option<Bytes>)

  datatype Tables = Tables(exchanges: map<ID, Row>, datagrams: map<ID, Bytes>)

  /** A UDP exchange whose datagram pointer is set. */
  predicate CarriesDatagram(x: Exchange) {
    x.transport.UDP? && x.datagram.Some?
  }

  /** The JSON metadata has no bodies and no monotonic readings, and decoding marks it persisted. */
  function Decoded(x: Exchange): Exchange {
    x.(monotonic := None,
       requestBody := [],
       datagram := if x.datagram.Some? then Some([]) else None,
       response := if x.response.Some? then Some([]) else None,
       persistence := Persisted)
  }

  function RowOf(x: Exchange): Row {
    Row(Decoded(x), if CarriesDatagram(x) then [] else x.requestBody, x.response)
  }

  /** Both upserts of one exchange, or the upsert and the delete of a datagram. */
  function Persist(t: Tables, x: Exchange): Tables {
    Tables(t.exchanges[x.id := RowOf(x)],
           if CarriesDatagram(x) then t.datagrams[x.id := x.datagram.value] else t.datagrams - {x.id})
  }

  /** Deleting exchanges takes their datagrams along where the connection enforces foreign keys. */
  function Delete(t: Tables, ids: set<ID>, cascades: bool): Tables {
    Tables(t.exchanges - ids, if cascades then t.datagrams - (ids * t.exchanges.Keys) else t.datagrams)
  }

  datatype BodyReply = Missing | Broken | Found(body: Bytes)

  function Body(t: Tables, id: ID, response: bool): BodyReply {
    if id !in t.exchanges then Missing
    else
      var row := t.exchanges[id];
      if row.metadata.transport.UDP? && !response then
        if row.metadata.datagram.None? then Broken
        else Found(if id in t.datagrams then t.datagrams[id] else [])
      else if response then Found(if row.responseBody.Some? then row.responseBody.value else [])
      else Found(row.requestBody)
  }

  // ------------------------------------------------------------------
  // One exchange at a time: the reference
  // ------------------------------------------------------------------

  type Stored = map<ID, Exchange>

  function Upserted(s: Stored, items: seq<Exchange>): Stored
    decreases |items|
  {
    if items == [] then s else Upserted(s[items[0].id := items[0]], items[1..])
  }

  function PersistAll(t: Tables, items: seq<Exchange>): Tables
    decreases |items|
  {
    if items == [] then t else PersistAll(Persist(t, items[0]), items[1..])
  }

  /** What the writer is asked to do over time. A batch succeeds as a whole or not at all. */
  datatype Operation = Batch(items: seq<Exchange>, succeeds: bool) | Remove(ids: set<ID>, cascades: bool)

  function Performed(t: Tables, op: Operation): Tables {
    match op
    case Batch(items, succeeds) => if succeeds then PersistAll(t, items) else t
    case Remove(ids, cascades) => Delete(t, ids, cascades)
  }

  function Recorded(s: Stored, op: Operation): Stored {
    match op
    case Batch(items, succeeds) => if succeeds then Upserted(s, items) else s
    case Remove(ids, _) => s - ids
  }

  function PerformedAll(t: Tables, ops: seq<Operation>): Tables
    decreases |ops|
  {
    if ops == [] then t else PerformedAll(Performed(t, ops[0]), ops[1..])
  }

  function RecordedAll(s: Stored, ops: seq<Operation>): Stored
    decreases |ops|
  {
    if ops == [] then s else RecordedAll(Recorded(s, ops[0]), ops[1..])
  }

  /** The tables hold exactly the stored exchanges; a datagram row without an exchange is not excluded. */
  ghost predicate Represents(t: Tables, s: Stored) {
    && t.exchanges.Keys == s.Keys
    && (forall id :: id in s ==> s[id].id == id && t.exchanges[id] == RowOf(s[id]))
    && (forall id :: id in s ==> (id in t.datagrams <==> CarriesDatagram(s[id])))
    && (forall id :: id in s && CarriesDatagram(s[id]) ==> t.datagrams[id] == s[id].datagram.value)
  }

  ghost predicate NoOrphans(t: Tables) {
    t.datagrams.Keys <= t.exchanges.Keys
  }

  lemma {:induction false} BatchRepresents(t: Tables, s: Stored, items: seq<Exchange>)
    requires Represents(t, s)
    ensures Represents(PersistAll(t, items), Upserted(s, items))
    ensures NoOrphans(t) ==> NoOrphans(PersistAll(t, items))
    decreases |items|
  {
    if items != [] {
      var x := items[0];
      assert Represents(Persist(t, x), s[x.id := x]);
      BatchRepresents(Persist(t, x), s[x.id := x], items[1..]);
    }
  }

  lemma DeleteRepresents(t: Tables, s: Stored, ids: set<ID>, cascades: bool)
    requires Represents(t, s)
    ensures Represents(Delete(t, ids, cascades), s - ids)
  {
  }

  /** Batches, failed batches and deletes refine the same changes made one exchange at a time. */
  lemma {:induction false} TablesRefineStored(t: Tables, s: Stored, ops: seq<Operation>)
    requires Represents(t, s)
    ensures Represents(PerformedAll(t, ops), RecordedAll(s, ops))
    decreases |ops|
  {
    if ops != [] {
      match ops[0] {
        case Batch(items, succeeds) => BatchRepresents(t, s, items);
        case Remove(ids, cascades) => DeleteRepresents(t, s, ids, cascades);
      }
      TablesRefineStored(Performed(t, ops[0]), Recorded(s, ops[0]), ops[1..]);
    }
  }

  /**
    A delete leaves no orphan exactly when it cascades or none of the deleted
    exchanges has a datagram.
   */
  lemma DeleteLeavesNoOrphans(t: Tables, ids: set<ID>, cascades: bool)
    requires NoOrphans(t)
    ensures NoOrphans(Delete(t, ids, cascades)) <==> cascades || ids !! t.datagrams.Keys
  {
    var t' := Delete(t, ids, cascades);
    if !cascades && !(ids !! t.datagrams.Keys) {
      var id :| id in ids && id in t.datagrams.Keys;
      assert id in t'.datagrams.Keys && id !in t'.exchanges.Keys;
    }
  }

  /** One datagram, stored and then deleted on a connection without foreign keys: its payload stays behind. */
  lemma DatagramLeftBehind()
    ensures var x := Exchange(7, UDP, Completed, 1, 10, Some(10), Some(1), [], Some([1]), None, Queued);
            var t := PerformedAll(Tables(map[], map[]), [Batch([x], true), Remove({7}, false)]);
            && t.exchanges == map[] && t.datagrams == map[7 := [1]] && !NoOrphans(t)
  {
    var x := Exchange(7, UDP, Completed, 1, 10, Some(10), Some(1), [], Some([1]), None, Queued);
    var stored := Persist(Tables(map[], map[]), x);
    assert [x][1..] == [] && PersistAll(Tables(map[], map[]), [x]) == stored;
    assert stored.datagrams == map[7 := [1]] && stored.exchanges.Keys == {7};
    var deleted := Delete(stored, {7}, false);
    assert deleted.exchanges == map[] && 7 in deleted.datagrams;
    var remove := Remove({7}, false);
    assert [Batch([x], true), remove][1..] == [remove] && [remove][1..] == [];
    assert PerformedAll(stored, [remove]) == deleted;
  }

  ghost predicate AllCascade(ops: seq<Operation>) {
    forall op :: op in ops && op.Remove? ==> op.cascades
  }

  lemma {:induction false} CascadesKeepNoOrphans(t: Tables, s: Stored, ops: seq<Operation>)
    requires Represents(t, s) && NoOrphans(t) && AllCascade(ops)
    ensures NoOrphans(PerformedAll(t, ops))
    decreases |ops|
  {
    if ops != [] {
      TablesRefineStored(t, s, ops[..1]);
      assert ops[..1] == [ops[0]];
      assert PerformedAll(t, ops[..1]) == Performed(t, ops[0]) by { assert ops[..1][1..] == []; }
      assert RecordedAll(s, ops[..1]) == Recorded(s, ops[0]) by { assert ops[..1][1..] == []; }
      match ops[0] {
        case Batch(items, succeeds) => BatchRepresents(t, s, items);
        case Remove(ids, cascades) => DeleteLeavesNoOrphans(t, ids, cascades);
      }
      CascadesKeepNoOrphans(Performed(t, ops[0]), Recorded(s, ops[0]), ops[1..]);
    }
  }

  // ------------------------------------------------------------------
  // Reading back
  // ------------------------------------------------------------------

  /** The bytes an exchange owns, whatever its transport. */
  function OwnBody(x: Exchange, response: bool): BodyReply {
    if response then Found(if x.response.Some? then x.response.value else [])
    else if x.transport.UDP? then if x.datagram.Some? then Found(x.datagram.value) else Broken
    else Found(x.requestBody)
  }

  /**
    After any operations on a new database, whether or not deletes cascade:
    a body query returns exactly the bytes last persisted for the id, an
    exchange has a datagram row if and only if it carries a datagram, and a
    metadata query returns the last persisted exchange without its payloads
    and with the same ordering key.
   */
  lemma ReadsReturnLastPersisted(ops: seq<Operation>, id: ID, response: bool)
    ensures var t := PerformedAll(Tables(map[], map[]), ops); var s := RecordedAll(map[], ops);
            && Body(t, id, response) == (if id in s then OwnBody(s[id], response) else Missing)
            && (id in t.exchanges <==> id in s)
            && (id in s ==>
                  && (id in t.datagrams <==> CarriesDatagram(s[id]))
                  && t.exchanges[id].metadata == Decoded(s[id])
                  && KeyOf(t.exchanges[id].metadata) == KeyOf(s[id]))
  {
    TablesRefineStored(Tables(map[], map[]), map[], ops);
  }

  /** The operation leaves this exchange under its id: the last one its batch has for it. */
  ghost predicate Writes(op: Operation, x: Exchange) {
    op.Batch? && op.succeeds && LastOf(op.items, x)
  }

  ghost predicate LastOf(items: seq<Exchange>, x: Exchange) {
    exists j :: 0 <= j < |items| && items[j] == x && !Names(items[j + 1..], x.id)
  }

  ghost predicate Names(items: seq<Exchange>, id: ID) {
    exists j :: 0 <= j < |items| && items[j].id == id
  }

  /** The operation writes or deletes the exchange with this id. */
  ghost predicate Touches(op: Operation, id: ID) {
    if op.Batch? then op.succeeds && Names(op.items, id) else id in op.ids
  }

  /** The last operation that touched the exchange's id wrote this exchange. */
  ghost predicate WrittenLast(ops: seq<Operation>, x: Exchange) {
    exists i :: 0 <= i < |ops| && Writes(ops[i], x) && Untouched(ops[i + 1..], x.id)
  }

  ghost predicate Untouched(ops: seq<Operation>, id: ID) {
    forall k :: 0 <= k < |ops| ==> !Touches(ops[k], id)
  }

  ghost predicate Has(s: Stored, x: Exchange) {
    x.id in s && s[x.id] == x
  }

  lemma {:induction false} UpsertsLast(s: Stored, items: seq<Exchange>, x: Exchange)
    ensures Has(Upserted(s, items), x) <==> LastOf(items, x) || (!Names(items, x.id) && Has(s, x))
    decreases |items|
  {
    if items != [] {
      UpsertsLast(s[items[0].id := items[0]], items[1..], x);
      assert items[0..1] + items[1..] == items;
      NamesAfter(items, x.id);
      if LastOf(items[1..], x) {
        var j :| 0 <= j < |items[1..]| && items[1..][j] == x && !Names(items[1..][j + 1..], x.id);
        assert items[j + 1] == x && items[1..][j + 1..] == items[j + 2..];
      }
      if LastOf(items, x) {
        var j :| 0 <= j < |items| && items[j] == x && !Names(items[j + 1..], x.id);
        if j > 0 {
          assert items[1..][j - 1] == x && items[1..][j..] == items[j + 1..];
        }
      }
    }
  }

  lemma NamesAfter(items: seq<Exchange>, id: ID)
    requires items != []
    ensures Names(items, id) <==> items[0].id == id || Names(items[1..], id)
  {
    if Names(items, id) {
      var j :| 0 <= j < |items| && items[j].id == id;
      if j > 0 {
        assert items[1..][j - 1].id == id;
      }
    }
    if Names(items[1..], id) {
      var j :| 0 <= j < |items[1..]| && items[1..][j].id == id;
      assert items[j + 1].id == id;
    }
  }

  /** What is stored after some operations is what they last wrote, read off the operations. */
  lemma {:induction false} StoredIsLastWritten(s: Stored, ops: seq<Operation>, x: Exchange)
    ensures Has(RecordedAll(s, ops), x) <==> WrittenLast(ops, x) || (Untouched(ops, x.id) && Has(s, x))
    decreases |ops|
  {
    if ops != [] {
      var later := Recorded(s, ops[0]);
      StoredIsLastWritten(later, ops[1..], x);
      assert Has(later, x) <==> Writes(ops[0], x) || (!Touches(ops[0], x.id) && Has(s, x)) by {
        if ops[0].Batch? && ops[0].succeeds {
          UpsertsLast(s, ops[0].items, x);
        }
      }
      assert Untouched(ops, x.id) <==> !Touches(ops[0], x.id) && Untouched(ops[1..], x.id) by {
        assert forall k :: 1 <= k < |ops| ==> ops[k] == ops[1..][k - 1];
      }
      if WrittenLast(ops[1..], x) {
        var i :| 0 <= i < |ops[1..]| && Writes(ops[1..][i], x) && Untouched(ops[1..][i + 1..], x.id);
        assert ops[i + 1] == ops[1..][i] && ops[1..][i + 1..] == ops[i + 2..];
      }
      if WrittenLast(ops, x) {
        var i :| 0 <= i < |ops| && Writes(ops[i], x) && Untouched(ops[i + 1..], x.id);
        if i > 0 {
          assert ops[1..][i - 1] == ops[i] && ops[1..][i..] == ops[i + 1..];
        }
      }
    }
  }

  /** Reading an exchange back: everything but its payloads and the monotonic clock, and each payload by its own query. */
  ghost predicate ReadsAs(t: Tables, x: Exchange) {
    && x.id in t.exchanges
    && (var y := t.exchanges[x.id].metadata;
        && y.id == x.id && y.transport == x.transport && y.state == x.state && y.revision == x.revision
        && y.started == x.started && y.completed == x.completed && y.monotonic.None?
        && y.requestBody == [] && y.persistence.Persisted?
        && y.datagram == (if x.datagram.Some? then Some([]) else None)
        && y.response == (if x.response.Some? then Some([]) else None))
    && (x.transport.UDP? && x.datagram.Some? ==> t.exchanges[x.id].requestBody == [])
    && Body(t, x.id, true) == Found(if x.response.Some? then x.response.value else [])
    && (x.transport.HTTP? ==> Body(t, x.id, false) == Found(x.requestBody))
    && (x.transport.UDP? && x.datagram.Some? ==> Body(t, x.id, false) == Found(x.datagram.value))
    && (x.transport.UDP? && x.datagram.None? ==> Body(t, x.id, false) == Broken)
  }

  /**
    After any operations on a new database an id is found exactly when the last
    operation that touched it wrote it, and it reads as the exchange written then.
   */
  lemma ReadsReturnLastWritten(ops: seq<Operation>, id: ID)
    ensures var t := PerformedAll(Tables(map[], map[]), ops);
            && (forall x :: WrittenLast(ops, x) && x.id == id ==> ReadsAs(t, x))
            && ((forall x: Exchange :: x.id == id ==> !WrittenLast(ops, x)) ==>
                  id !in t.exchanges && Body(t, id, true) == Body(t, id, false) == Missing)
  {
    var t, s := PerformedAll(Tables(map[], map[]), ops), RecordedAll(map[], ops);
    TablesRefineStored(Tables(map[], map[]), map[], ops);
    forall x | WrittenLast(ops, x) && x.id == id ensures ReadsAs(t, x) {
      StoredIsLastWritten(map[], ops, x);
    }
    if id in s {
      StoredIsLastWritten(map[], ops, s[id]);
    }
  }

  /** On connections that enforce foreign keys there is never a datagram without its exchange. */
  lemma CascadingDatabaseHasNoOrphans(ops: seq<Operation>)
    requires AllCascade(ops)
    ensures NoOrphans(PerformedAll(Tables(map[], map[]), ops))
  {
    CascadesKeepNoOrphans(Tables(map[], map[]), map[], ops);
  }

  // ------------------------------------------------------------------
  // The transaction loop
  // ------------------------------------------------------------------

  class Database {
    var tables: Tables

    constructor ()
      ensures tables == Tables(map[], map[])
    {
      tables := Tables(map[], map[]);
    }

    /**
      One transaction for the whole batch. `failAt` is the item whose
      statement fails, if one does; `commits` says whether the commit succeeds.
     */
    method WriteBatch(batch: seq<Exchange>, failAt: Option<nat>, commits: bool) returns (ok: bool)
      modifies this
      ensures ok == (commits && (failAt.Some? ==> failAt.value >= |batch|))
      ensures tables == Performed(old(tables), Batch(batch, ok))
    {
      var transaction := tables;
      ok := true;
      var i := 0;
      while i < |batch|
        invariant 0 <= i <= |batch| && ok
        invariant failAt.Some? ==> i <= failAt.value
        invariant PersistAll(transaction, batch[i..]) == PersistAll(tables, batch)
        invariant tables == old(tables)
      {
        if failAt == Some(i) {
          ok := false;
          break;
        }
        assert batch[i..][1..] == batch[i + 1..];
        transaction := Persist(transaction, batch[i]);
        i := i + 1;
      }
      if ok {
        ok := commits;
      }
      if ok {
        tables := transaction;
      }
    }
  }
}
