/**
  Following `next_cursor` while the system runs: every page reads RAM at one
  moment, looks its cursor up in SQLite at a later one and lists SQLite's rows at
  a third, and other steps come between any of them (internal/httpapi/exchanges.go).
 */
module TraceWalks {
  import opened Common
  import opened Ordering
  import opened Capture
  import opened Store
  import opened History
  import opened Paging
  import opened Lifecycle
  import opened OpenPages

  /** Positions in a trace: when RAM was listed, the cursor looked up in SQLite, and the rows listed. */
  datatype Request = Request(ram: nat, lookup: nat, rows: nat, cursor: Cursor, reply: Reply)

  // ------------------------------------------------------------------
  // Steps that leave an open page alone
  // ------------------------------------------------------------------

  /** What leaves RAM is stored, or newer than the boundary. */
  ghost predicate LeavesQuietly(s: System, all: map<ID, Exchange>, kept: map<ID, Exchange>, boundary: Key) {
    forall id :: id in all && id !in kept ==> id in s.rows || Newer(KeyOf(all[id]), boundary)
  }

  /** New traffic and saves that keep an exchange in its place; what they evict leaves quietly. */
  ghost predicate SavesQuietly(s: System, x: Exchange, kept: map<ID, Exchange>, boundary: Key) {
    Quiet(StoresOf(s), Record(x), boundary) && LeavesQuietly(s, s.ram[x.id := x], kept, boundary)
  }

  /** A step that neither shows nor hides anything at or below the boundary. */
  ghost predicate Calm(s: System, step: Step, boundary: Key)
    requires Enabled(s, step)
  {
    match step
    case Act(_, effect, _) => effect.Saved? ==> SavesQuietly(s, effect.x, Next(s, step).ram, boundary)
    case PutBack(_) => SavesQuietly(s, s.fetched.value, Next(s, step).ram, boundary)
    case Resize(_, _) => LeavesQuietly(s, s.ram, Next(s, step).ram, boundary)
    case Clear => LeavesQuietly(s, s.ram, Next(s, step).ram, boundary)
    case Expire(_) => LeavesQuietly(s, s.ram, Next(s, step).ram, boundary)
    case Remove(_) => LeavesQuietly(s, s.ram, Next(s, step).ram, boundary)
    case Write(succeeds) =>
      var x := s.queue[0];
      succeeds ==> x.id in s.ram || x.id in s.rows || Newer(KeyOf(x), boundary)
    case Delete(id) => id in s.rows ==> Newer(KeyOf(s.rows[id]), boundary)
    case _ => true
  }

  /** The place an exchange is shown at. */
  function PlaceOf(s: System, id: ID): Option<Key> {
    if id in s.ram then Some(KeyOf(s.ram[id])) else if id in s.rows then Some(KeyOf(s.rows[id])) else None
  }

  predicate Above(place: Option<Key>, boundary: Key) {
    place.Some? ==> Newer(place.value, boundary)
  }

  /** Shown at the same place, or not shown at or below the boundary either time. */
  predicate Unmoved(before: Option<Key>, after: Option<Key>, boundary: Key) {
    before == after || (Above(before, boundary) && Above(after, boundary))
  }

  lemma CopiesAgree(s: System, id: ID)
    requires Inv(s) && id in s.ram && id in s.rows
    ensures KeyOf(s.ram[id]) == KeyOf(s.rows[id])
  {
    assert Copy(s.runs, s.ram[id]);
  }

  lemma LossIsUnmoved(s: System, t: System, boundary: Key, id: ID)
    requires Inv(s) && t.rows == s.rows
    requires LeavesQuietly(s, s.ram, t.ram, boundary)
    requires id in t.ram ==> id in s.ram && t.ram[id] == s.ram[id]
    ensures Unmoved(PlaceOf(s, id), PlaceOf(t, id), boundary)
  {
    if id in s.ram && id !in t.ram && id in s.rows {
      CopiesAgree(s, id);
    }
  }

  lemma SaveIsUnmoved(s: System, x: Exchange, t: System, boundary: Key, id: ID)
    requires Inv(s) && t.rows == s.rows && SavesQuietly(s, x, t.ram, boundary)
    requires id in t.ram ==> id in s.ram[x.id := x] && t.ram[id] == s.ram[x.id := x][id]
    ensures Unmoved(PlaceOf(s, id), PlaceOf(t, id), boundary)
  {
    if id in s.ram && id in s.rows {
      CopiesAgree(s, id);
    }
  }

  lemma WriteIsUnmoved(s: System, succeeds: bool, boundary: Key, id: ID)
    requires Inv(s) && s.queue != [] && Calm(s, Write(succeeds), boundary)
    ensures Unmoved(PlaceOf(s, id), PlaceOf(Next(s, Write(succeeds)), id), boundary)
    ensures id in s.rows ==>
              var rows := Next(s, Write(succeeds)).rows; id in rows && KeyOf(rows[id]) == KeyOf(s.rows[id])
  {
    var x := s.queue[0];
    assert x in s.queue && FinalCopy(s.runs, x);
    assert x.id in s.rows ==> FinalCopy(s.runs, s.rows[x.id]);
  }

  lemma ActIsUnmoved(s: System, step: Step, boundary: Key, id: ID)
    requires Inv(s) && step.Act? && Enabled(s, step) && Calm(s, step, boundary)
    ensures Unmoved(PlaceOf(s, id), PlaceOf(Next(s, step), id), boundary) && Next(s, step).rows == s.rows
  {
    hide Evicts;
    if step.effect.Saved? {
      SaveIsUnmoved(s, step.effect.x, Next(s, step), boundary, id);
    }
  }

  lemma StepIsUnmoved(s: System, step: Step, boundary: Key, id: ID)
    requires Inv(s) && Enabled(s, step) && Calm(s, step, boundary)
    ensures Unmoved(PlaceOf(s, id), PlaceOf(Next(s, step), id), boundary)
    ensures id in s.rows && !Newer(KeyOf(s.rows[id]), boundary) ==>
              var rows := Next(s, step).rows; id in rows && KeyOf(rows[id]) == KeyOf(s.rows[id])
  {
    var t := Next(s, step);
    match step
    case Act(_, _, _) => ActIsUnmoved(s, step, boundary, id);
    case PutBack(_) => SaveIsUnmoved(s, s.fetched.value, t, boundary, id);
    case Resize(_, _) => LossIsUnmoved(s, t, boundary, id);
    case Clear => LossIsUnmoved(s, t, boundary, id);
    case Expire(_) => LossIsUnmoved(s, t, boundary, id);
    case Remove(_) => LossIsUnmoved(s, t, boundary, id);
    case Write(succeeds) => WriteIsUnmoved(s, succeeds, boundary, id);
    case _ =>
  }

  ghost predicate LeadsCalmly(s: System, t: System, boundary: Key) {
    exists step :: Enabled(s, step) && Calm(s, step, boundary) && t == Next(s, step)
  }

  ghost predicate CalmFrom(trace: seq<System>, i: nat, j: nat, boundary: Key) {
    j < |trace| && forall m :: i <= m < j ==> LeadsCalmly(trace[m], trace[m + 1], boundary)
  }

  /** Over a calm stretch of the trace nothing at or below the boundary moves, and its rows stay. */
  lemma {:induction false} StretchIsUnmoved(trace: seq<System>, rows: map<ID, Exchange>, i: nat, j: nat, boundary: Key,
                                            id: ID)
    requires IsTrace(trace, rows) && i <= j < |trace| && CalmFrom(trace, i, j, boundary)
    ensures Unmoved(PlaceOf(trace[i], id), PlaceOf(trace[j], id), boundary)
    ensures id in trace[i].rows && !Newer(KeyOf(trace[i].rows[id]), boundary) ==>
              id in trace[j].rows && KeyOf(trace[j].rows[id]) == KeyOf(trace[i].rows[id])
  {
    if i < j {
      StretchIsUnmoved(trace, rows, i, j - 1, boundary, id);
      TraceKeepsInv(trace, rows);
      assert LeadsCalmly(trace[j - 1], trace[j - 1 + 1], boundary);
      var step :| Enabled(trace[j - 1], step) && Calm(trace[j - 1], step, boundary) && trace[j] == Next(trace[j - 1], step);
      StepIsUnmoved(trace[j - 1], step, boundary, id);
    }
  }

  // ------------------------------------------------------------------
  // What a page meets
  // ------------------------------------------------------------------

  /** The stores as one request reads them. */
  function Met(trace: seq<System>, r: Request): Stores
    requires r.ram < |trace| && r.rows < |trace|
  {
    Stores(trace[r.ram].ram, trace[r.rows].rows)
  }

  /**
    RAM at one moment and rows at a later one show, at and below the boundary,
    what both showed together at the first moment.
   */
  lemma MetShowsPlaces(trace: seq<System>, rows: map<ID, Exchange>, i: nat, j: nat, boundary: Key, k: Key)
    requires IsTrace(trace, rows) && i <= j < |trace| && CalmFrom(trace, i, j, boundary)
    requires Newer(boundary, k) && Consistent(Stores(trace[i].ram, trace[j].rows))
    ensures k in KeysUnder(Stores(trace[i].ram, trace[j].rows), Some(boundary)) <==> PlaceOf(trace[i], k.id) == Some(k)
  {
    var s := Stores(trace[i].ram, trace[j].rows);
    UnderUnion(s, Some(boundary), k);
    UnionFiled(s.ram, s.rows);
    KeyOwner(Union(s.ram, s.rows), k);
    StretchIsUnmoved(trace, rows, i, j, boundary, k.id);
    TraceKeepsInv(trace, rows);
    if k.id in trace[j].ram && k.id in trace[j].rows {
      CopiesAgree(trace[j], k.id);
    }
  }

  // ------------------------------------------------------------------
  // Walks
  // ------------------------------------------------------------------

  /** What the handler answers, from RAM and rows read in this order. */
  ghost predicate Asked(trace: seq<System>, r: Request, limit: nat) {
    && r.ram <= r.lookup <= r.rows < |trace|
    && if r.cursor.Some? && !Retains(trace[r.ram].ram, trace[r.lookup].rows, r.cursor.value)
       then r.reply.ResyncRequired?
       else Answered(r.reply, Met(trace, r), r.cursor, limit)
  }

  /** The next request sends the cursor it was given, after nothing but calm steps. */
  ghost predicate Follows(trace: seq<System>, v: Request, w: Request) {
    && v.reply.Page? && v.reply.next.Some? && w.cursor == v.reply.next
    && v.ram <= v.rows <= w.ram <= w.lookup <= w.rows < |trace|
    && CalmFrom(trace, v.ram, w.rows, v.reply.next.value)
  }

  ghost predicate IsTraceWalk(trace: seq<System>, walk: seq<Request>, limit: nat)
    decreases |walk|
  {
    && walk != [] && Asked(trace, walk[0], limit)
    && (|walk| > 1 ==> Follows(trace, walk[0], walk[1]) && IsTraceWalk(trace, walk[1..], limit))
  }

  /**
    What wall clocks that are set back would break: datagrams in RAM have the same
    order by both clocks, and nothing that RAM showed active is found completed
    before it started.
   */
  ghost predicate ClocksBehave(trace: seq<System>, r: Request)
    requires r.ram < |trace| && r.rows < |trace|
  {
    && Steady(trace[r.ram].ram)
    && forall id :: id in trace[r.ram].ram && id in trace[r.rows].rows && !IsTerminal(trace[r.ram].ram[id].state)
         ==> !CompletedEarly(trace[r.rows].rows[id])
  }

  ghost predicate ClocksBehaveThroughout(trace: seq<System>, walk: seq<Request>) {
    forall i :: 0 <= i < |walk| ==>
      walk[i].ram <= walk[i].rows < |trace| && ClocksBehave(trace, walk[i])
  }

  function VisitOf(trace: seq<System>, r: Request): Visit
    requires r.ram < |trace| && r.rows < |trace|
  {
    Visit(Met(trace, r), r.cursor, r.reply)
  }

  function Visits(trace: seq<System>, walk: seq<Request>): (visits: seq<Visit>)
    requires forall i :: 0 <= i < |walk| ==> walk[i].ram < |trace| && walk[i].rows < |trace|
    ensures |visits| == |walk|
    ensures forall i :: 0 <= i < |walk| ==> visits[i] == VisitOf(trace, walk[i])
    decreases |walk|
  {
    if walk == [] then [] else [VisitOf(trace, walk[0])] + Visits(trace, walk[1..])
  }

  /** The exchange a cursor names is still at its place when the next request looks for it. */
  lemma BoundaryStays(trace: seq<System>, rows: map<ID, Exchange>, v: Request, w: Request)
    requires IsTrace(trace, rows) && Follows(trace, v, w)
    requires Retains(trace[v.ram].ram, trace[v.rows].rows, v.reply.next.value)
    ensures Retains(trace[w.ram].ram, trace[w.lookup].rows, v.reply.next.value)
  {
    var b := v.reply.next.value;
    TraceKeepsInv(trace, rows);
    KeyOwner(trace[v.ram].ram, b);
    KeyOwner(trace[v.rows].rows, b);
    var from := if b in MapKeys(trace[v.ram].ram) then v.ram else v.rows;
    assert PlaceOf(trace[from], b.id) == Some(b) by {
      if b.id in trace[from].ram && b.id in trace[from].rows {
        CopiesAgree(trace[from], b.id);
      }
    }
    assert CalmFrom(trace, from, w.ram, b);
    assert CalmFrom(trace, w.ram, w.lookup, b);
    StretchIsUnmoved(trace, rows, from, w.ram, b, b.id);
    StretchIsUnmoved(trace, rows, w.ram, w.lookup, b, b.id);
    TraceKeepsInv(trace, rows);
    KeyOwner(trace[w.ram].ram, b);
    KeyOwner(trace[w.lookup].rows, b);
  }

  /** Both requests meet the same history under the cursor between them. */
  lemma RemainingStays(trace: seq<System>, rows: map<ID, Exchange>, v: Request, w: Request)
    requires IsTrace(trace, rows) && Follows(trace, v, w)
    requires Consistent(Met(trace, v)) && Consistent(Met(trace, w))
    ensures Remaining(Met(trace, w), w.cursor) == Remaining(Met(trace, v), w.cursor)
  {
    var b := v.reply.next.value;
    assert CalmFrom(trace, v.ram, v.rows, b);
    assert CalmFrom(trace, w.ram, w.rows, b);
    assert CalmFrom(trace, v.ram, w.ram, b);
    forall k ensures k in KeysUnder(Met(trace, v), Some(b)) <==> k in KeysUnder(Met(trace, w), Some(b)) {
      UnderUnion(Met(trace, v), Some(b), k);
      UnderUnion(Met(trace, w), Some(b), k);
      if Newer(b, k) {
        MetShowsPlaces(trace, rows, v.ram, v.rows, b, k);
        MetShowsPlaces(trace, rows, w.ram, w.rows, b, k);
        StretchIsUnmoved(trace, rows, v.ram, w.ram, b, k.id);
      }
    }
    assert KeysUnder(Met(trace, v), Some(b)) == KeysUnder(Met(trace, w), Some(b));
  }

  lemma NextIsServed(trace: seq<System>, rows: map<ID, Exchange>, v: Request, w: Request, limit: nat)
    requires IsTrace(trace, rows) && Follows(trace, v, w) && Asked(trace, w, limit)
    requires ClocksBehave(trace, w) && Served(VisitOf(trace, v), limit)
    ensures Served(VisitOf(trace, w), limit) && LeadsTo(VisitOf(trace, v), VisitOf(trace, w))
  {
    PageReadsInStepExactly(trace, rows, w.ram, w.rows);
    CursorRetained(VisitOf(trace, v), limit);
    BoundaryStays(trace, rows, v, w);
    RemainingStays(trace, rows, v, w);
    hide Remaining, Answered, CalmFrom, IsTrace, Retains, Consistent;
  }

  lemma {:induction false} TraceWalkIsWalk(trace: seq<System>, rows: map<ID, Exchange>, walk: seq<Request>, limit: nat)
    requires IsTrace(trace, rows) && limit >= 1
    requires IsTraceWalk(trace, walk, limit) && ClocksBehaveThroughout(trace, walk)
    requires Served(VisitOf(trace, walk[0]), limit)
    ensures IsWalk(Visits(trace, walk), limit)
    decreases |walk|
  {
    hide IsTrace, Served, Follows, LeadsTo, ClocksBehave, Asked;
    if |walk| > 1 {
      NextIsServed(trace, rows, walk[0], walk[1], limit);
      TraceWalkIsWalk(trace, rows, walk[1..], limit);
      assert Visits(trace, walk)[1..] == Visits(trace, walk[1..]);
    }
  }

  /**
    Following `next_cursor` while the system runs. As long as the clocks behave
    and only calm steps come between reading one page's RAM and the next page's
    rows: no request is refused, every exchange that the first request met is
    listed once, strictly newest first, and the end comes within one request per
    `limit` exchanges.
   */
  lemma TraceWalkListsAll(trace: seq<System>, rows: map<ID, Exchange>, walk: seq<Request>, limit: nat)
    requires IsTrace(trace, rows) && limit >= 1
    requires IsTraceWalk(trace, walk, limit) && ClocksBehaveThroughout(trace, walk)
    requires walk[0].cursor == None
    ensures forall i :: 0 <= i < |walk| ==> walk[i].reply.Page?
    ensures var first := Met(trace, walk[0]); var visits := Visits(trace, walk);
            && (IsLast(visits[|visits| - 1]) ==> Seen(visits) == Newest(MapKeys(Union(first.ram, first.rows))))
            && limit * (|walk| - 1) <= |Remaining(first, None)|
  {
    hide IsTrace, Answered, Steady, CalmFrom;
    var visits := Visits(trace, walk);
    PageReadsInStepExactly(trace, rows, walk[0].ram, walk[0].rows);
    TraceWalkIsWalk(trace, rows, walk, limit);
    AllPages(visits, limit);
    WalkPartitions(visits, limit);
    if IsLast(visits[|visits| - 1]) {
      CompleteWalk(visits, limit);
    }
  }
}
