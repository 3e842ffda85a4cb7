/**
  History pages over the running system: a page reads RAM at one moment and
  SQLite at a later one (internal/httpapi/exchanges.go).
 */
module OpenPages {
  import opened Common
  import opened Ordering
  import opened Capture
  import opened RunProtocol
  import opened Lifecycle
  import History
  import Paging

  /**
    A page reads RAM first and SQLite later. What it reads is in step exactly
    when no exchange that RAM showed active has a row that says it completed
    before it started, as wall-clock times can.
   */
  lemma PageReadsInStepExactly(trace: seq<System>, rows: map<ID, Exchange>, i: nat, j: nat)
    requires IsTrace(trace, rows) && i <= j < |trace|
    ensures Paging.Consistent(Paging.Stores(trace[i].ram, trace[j].rows))
       <==> forall id :: id in trace[i].ram && id in trace[j].rows && !IsTerminal(trace[i].ram[id].state)
              ==> !CompletedEarly(trace[j].rows[id])
  {
    TraceKeepsInv(trace, rows);
    var ram, later := trace[i].ram, trace[j].rows;
    forall id | id in ram && id in later
      ensures Newer(KeyOf(ram[id]), KeyOf(later[id])) <==> !IsTerminal(ram[id].state) && CompletedEarly(later[id])
    {
      RecordsOnlyUpgrade(trace, rows, i, j);
      assert OnlyUpgrades(trace[i].runs, trace[j].runs, id);
      assert Copy(trace[i].runs, ram[id]) && id in trace[j].runs;
      ReadingsUpgrade(trace, rows, i, j, ram[id], later[id]);
      ShownIsCopy(trace, rows, i, ram[id]);
      ShownIsCopy(trace, rows, j, later[id]);
      assert FinalCopy(trace[j].runs, later[id]);
    }
  }

  predicate CompletedEarly(x: Exchange) {
    x.completed.Some? && x.completed.value < x.started
  }

  // ------------------------------------------------------------------
  // Open pages
  // ------------------------------------------------------------------

  ghost function StoresOf(s: System): Paging.Stores {
    Paging.Stores(s.ram, s.rows)
  }

  /**
    What every persisted exchange goes through disturbs no open page: the save
    of its terminal record with a new status, the writer's store, the callback's
    save, and its eviction once it is stored.
   */
  lemma PersistingIsQuiet(s: System, boundary: Key)
    requires Inv(s)
    ensures forall id, x, evicted :: Enabled(s, Act(id, Saved(x), evicted)) && Ended(s.runs, id) && (id in s.ram || id in s.rows) ==>
              Paging.Quiet(StoresOf(s), Paging.Record(x), boundary)
    ensures s.queue != [] && s.queue[0].id in s.ram ==>
              Paging.Quiet(StoresOf(s), Paging.Persist(s.queue[0]), boundary)
    ensures s.fetched.Some? && (s.fetched.value.id in s.ram || s.fetched.value.id in s.rows) ==>
              Paging.Quiet(StoresOf(s), Paging.Record(s.fetched.value), boundary)
    ensures forall id :: id in s.ram && id in s.rows ==> Paging.Quiet(StoresOf(s), Paging.Evict(id), boundary)
  {
    if s.queue != [] && s.queue[0].id in s.ram {
      assert s.queue[0] in s.queue;
      assert FinalCopy(s.runs, s.queue[0]) && Copy(s.runs, s.ram[s.queue[0].id]);
    }
  }

  // ------------------------------------------------------------------
  // A page around a clock set back
  // ------------------------------------------------------------------

  /** A request started at 40. */
  function Arriving(revision: nat): Exchange {
    Exchange(7, HTTP, Receiving, revision, 40, None, None, [], None, None, Persistence.Unmanaged)
  }

  /** The same, completed at 20. */
  function Backdated(persistence: Persistence): Exchange {
    Exchange(7, HTTP, Completed, 3, 40, Some(20), None, [], None, None, persistence)
  }

  lemma RequestArrives()
    ensures TraceTo(Recording(Arriving(2), 2, [(7, 1), (7, 2)]), 6)
  {
    var once: seq<(ID, nat)>, twice: seq<(ID, nat)> := [(7, 1)], [(7, 1), (7, 2)];
    FirstSaved(Arriving(1));
    Publishes(Arriving(1), 0, []);
    Saves(Arriving(1), Arriving(2), 1, once);
    Publishes(Arriving(2), 1, once);
    assert [] + [(7, 1)] == once && once + [(7, 2)] == twice;
    hide TraceTo, Leads, Recording;
    OneMore(Recording(Arriving(1), 0, []), 3, Recording(Arriving(1), 1, once));
    OneMore(Recording(Arriving(1), 1, once), 4, Recording(Arriving(2), 1, once));
    OneMore(Recording(Arriving(2), 1, once), 5, Recording(Arriving(2), 2, twice));
  }

  lemma RequestIsWritten(trace: seq<System>)
    requires IsTrace(trace, map[]) && |trace| == 6
    requires trace[5] == Recording(Arriving(2), 2, [(7, 1), (7, 2)])
    ensures exists longer: seq<System> ::
              IsTrace(longer, map[]) && |longer| == 10
              && longer[5] == trace[5] && longer[9].rows == map[7 := Backdated(Queued)]
  {
    var x, y := Backdated(Persistence.Unmanaged), Backdated(Queued);
    var events := [(7, 1), (7, 2)];
    Saves(Arriving(2), x, 2, events);
    Saves(x, y, 2, events);
    IsWritten(y, 2, events);
    hide Leads, IsTrace, Recording;
    var longer := Longer(trace, Recording(x, 2, events));
    longer := Longer(longer, Recording(y, 2, events));
    longer := Longer(longer, Alone(y, 2, Resolved, [y], map[], [], None, events));
    longer := Longer(longer, Alone(y, 2, Resolved, [], map[7 := Stored(y)], [7], None, events));
  }

  lemma Longer(trace: seq<System>, t: System) returns (longer: seq<System>)
    requires IsTrace(trace, map[]) && Leads(trace[|trace| - 1], t)
    ensures longer == trace + [t] && IsTrace(longer, map[])
  {
    Extended(trace, t);
    longer := trace + [t];
  }

  /** RAM as read first and the rows as read later put exchange 7 on both sides of the boundary. */
  ghost predicate OnBothSides(ram: map<ID, Exchange>, rows: map<ID, Exchange>, boundary: Key) {
    && 7 in ram && 7 in rows && CompletedEarly(rows[7])
    && !Paging.Consistent(Paging.Stores(ram, rows))
    && !History.Under(KeyOf(ram[7]), Some(boundary))
    && 7 in History.Merged(ram, rows, Some(boundary))
  }

  lemma ReadsOnBothSides(x: Exchange, y: Exchange)
    requires x == Arriving(2) && y == Backdated(Queued)
    ensures OnBothSides(map[7 := x], map[7 := y], Key(30, 1))
  {
    var ram: map<ID, Exchange>, rows: map<ID, Exchange> := map[7 := x], map[7 := y];
    assert 7 in ram && 7 in rows && Newer(KeyOf(ram[7]), KeyOf(rows[7]));
    assert 7 in History.Older(rows, Some(Key(30, 1)));
  }

  /**
    A run that shows it: a page reads RAM while a request is active, the wall
    clock is set back, the request completes and is written, and then the page
    reads the rows. The copies are out of step, and the request is on both sides
    of the cursor: its RAM copy belongs to an earlier page, its row to this one.
   */
  lemma ClockSetBackRepeats()
    ensures exists trace: seq<System> ::
              IsTrace(trace, map[]) && |trace| == 10 && OnBothSides(trace[5].ram, trace[9].rows, Key(30, 1))
  {
    RequestArrives();
    var trace :| IsTrace(trace, map[]) && |trace| == 6 && trace[5] == Recording(Arriving(2), 2, [(7, 1), (7, 2)]);
    hide IsTrace, OnBothSides;
    RequestIsWritten(trace);
    var longer: seq<System> :| IsTrace(longer, map[]) && |longer| == 10
      && longer[5] == trace[5] && longer[9].rows == map[7 := Backdated(Queued)];
    ReadsOnBothSides(Arriving(2), Backdated(Queued));
    assert longer[5].ram == map[7 := Arriving(2)];
  }
}
