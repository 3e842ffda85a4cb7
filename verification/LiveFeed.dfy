/**
  What the browser's live feed shows of the exchanges the server records: the
  feed reads the detail of an exchange after each of its events
  (web/src/lib/components/AppShell.svelte, web/src/lib/realtime-feed.ts).
 */
module LiveFeed {
  import opened Common
  import opened Ordering
  import opened RealtimeFeed
  import Capture
  import Lifecycle

  /** The zero time, 1 January of year 1, in nanoseconds. */
  const ZERO_TIME: int := -62_135_596_800_000_000_000

  const MILLISECOND: int := 1_000_000

  /**
    The completion time the detail carries. It is a struct, which omitempty does
    not omit, so an active exchange says the zero time instead of nothing.
   */
  function CompletedAt(x: Capture.Exchange): int {
    if x.completed.Some? then x.completed.value else ZERO_TIME
  }

  /** summaryFromExchange, with the time compareNewest reads from it. */
  function SummaryOf(x: Capture.Exchange): Summary {
    Summary(x.id, x.revision, CompletedAt(x) / MILLISECOND,
            Shown(x.transport, x.state, x.started, x.completed, |x.requestBody|,
                  if x.response.Some? then |x.response.value| else 0,
                  if x.datagram.Some? then |x.datagram.value| else 0))
  }

  /** A summary shows the exchange's own fields, the lengths of its payloads, and its completion in milliseconds. */
  lemma SummaryShows(x: Capture.Exchange)
    ensures var s := SummaryOf(x);
            && s.id == x.id && s.revision == x.revision && s.shown.transport == x.transport && s.shown.state == x.state
            && s.shown.started == x.started && s.shown.completed == x.completed
            && s.shown.requestBytes == |x.requestBody|
            && (x.response.Some? ==> s.shown.responseBytes == |x.response.value|)
            && (x.response.None? ==> s.shown.responseBytes == 0)
            && (x.datagram.Some? ==> s.shown.datagramBytes == |x.datagram.value|)
            && (x.datagram.None? ==> s.shown.datagramBytes == 0)
            && (x.completed.Some? ==> s.time * 1_000_000 <= x.completed.value < (s.time + 1) * 1_000_000)
            && (x.completed.None? ==> s.time == -62_135_596_800_000)
  {
  }

  /** Two readings of one exchange. */
  lemma UpgradesCohere(x: Capture.Exchange, y: Capture.Exchange)
    requires Lifecycle.Upgrades(x, y) && CompletedAt(y) >= ZERO_TIME
    requires x.completed.Some? <==> Capture.IsTerminal(x.state)
    ensures x.revision == y.revision ==> SummaryOf(x) == SummaryOf(y)
    ensures SummaryOf(x).time <= SummaryOf(y).time
  {
    Earlier(CompletedAt(x), CompletedAt(y));
  }

  lemma Earlier(a: int, b: int)
    ensures a <= b ==> a / MILLISECOND <= b / MILLISECOND
  {
  }

  /** A summary of a record that RAM or SQLite showed at some moment of the trace, completed after the zero time. */
  ghost predicate Read(trace: seq<Lifecycle.System>, summary: Summary) {
    exists i, x :: 0 <= i < |trace| && ReadAt(trace, summary, i, x)
  }

  ghost predicate ReadAt(trace: seq<Lifecycle.System>, summary: Summary, i: nat, x: Capture.Exchange) {
    i < |trace| && Lifecycle.ShownAt(trace[i], x) && summary == SummaryOf(x) && CompletedAt(x) >= ZERO_TIME
  }

  lemma ReadingsCohere(trace: seq<Lifecycle.System>, rows: map<ID, Capture.Exchange>, a: Summary, b: Summary)
    requires Lifecycle.IsTrace(trace, rows) && Read(trace, a) && Read(trace, b) && a.id == b.id
    ensures a.revision == b.revision ==> a == b
    ensures a.revision < b.revision ==> a.time <= b.time
  {
    var i, x :| 0 <= i < |trace| && ReadAt(trace, a, i, x);
    var j, y :| 0 <= j < |trace| && ReadAt(trace, b, j, y);
    Lifecycle.ShownIsCopy(trace, rows, i, x);
    Lifecycle.ShownIsCopy(trace, rows, j, y);
    if i <= j {
      Lifecycle.ReadingsUpgrade(trace, rows, i, j, x, y);
      UpgradesCohere(x, y);
    } else {
      Lifecycle.ReadingsUpgrade(trace, rows, j, i, y, x);
      UpgradesCohere(y, x);
    }
  }

  /**
    Summaries read from the server at any moments, in any order, are versions the
    feed's merge can rely on; wall-clock times that go backwards do no harm.
   */
  lemma ReadSummariesCohere(trace: seq<Lifecycle.System>, rows: map<ID, Capture.Exchange>, items: seq<Summary>)
    requires Lifecycle.IsTrace(trace, rows)
    requires forall x :: x in items ==> Read(trace, x)
    ensures Coherent(items)
  {
    forall x, y | x in items && y in items && x.id == y.id
      ensures (x.revision == y.revision ==> x == y) && (x.revision < y.revision ==> x.time <= y.time)
    {
      ReadingsCohere(trace, rows, x, y);
    }
  }

  /** So the feed shows what one merge of everything it has read would show. */
  lemma FeedShowsOneMerge(trace: seq<Lifecycle.System>, rows: map<ID, Capture.Exchange>, lists: seq<seq<Summary>>)
    requires Lifecycle.IsTrace(trace, rows)
    requires forall x :: x in Concat(lists) ==> Read(trace, x)
    ensures Folded(lists) == Feed(Concat(lists))
  {
    ReadSummariesCohere(trace, rows, Concat(lists));
    FoldIsOneMerge(lists);
  }

  /**
    The documented feed has each new exchange on top. An active exchange ranks
    above another one exactly when that is active too and has the smaller id:
    it is below every completed one, however lately it started.
   */
  lemma ActivePlaceExactly(x: Capture.Exchange, y: Capture.Exchange)
    requires x.id != y.id && x.completed.None?
    requires y.completed.Some? ==> y.completed.value >= ZERO_TIME + MILLISECOND
    ensures Newer(KeyOf(SummaryOf(x)), KeyOf(SummaryOf(y))) <==> y.completed.None? && x.id > y.id
  {
    if y.completed.Some? {
      Earlier(ZERO_TIME + MILLISECOND, y.completed.value);
    }
  }
}
