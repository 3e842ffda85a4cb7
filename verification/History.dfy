/** One page of merged RAM and SQLite history, and walks over pages (internal/httpapi/exchanges.go). */
module History {
  import opened Common
  import opened Ordering
  import opened Capture
  import opened Listing
  import opened Store

  type Cursor = Option<Key>

  predicate Under(k: Key, cursor: Cursor) {
    cursor.Some? ==> Newer(cursor.value, k)
  }

  ghost function Older(items: map<ID, Exchange>, cursor: Cursor): map<ID, Exchange> {
    map id | id in items && Under(KeyOf(items[id]), cursor) :: items[id]
  }

  /** Both stores as one: the RAM copy of an exchange hides its row. */
  ghost function Union(ram: map<ID, Exchange>, rows: map<ID, Exchange>): map<ID, Exchange> {
    map id | id in ram.Keys + rows.Keys :: if id in ram then ram[id] else rows[id]
  }

  /** What the handler merges when SQLite returns every row under the cursor. */
  ghost function Merged(ram: map<ID, Exchange>, rows: map<ID, Exchange>, cursor: Cursor): map<ID, Exchange> {
    Union(Older(ram, cursor), Older(rows, cursor))
  }

  /** No row is older than the RAM copy of the same exchange. */
  ghost predicate CopiesInStep(ram: map<ID, Exchange>, rows: map<ID, Exchange>) {
    forall id :: id in ram && id in rows ==> !Newer(KeyOf(ram[id]), KeyOf(rows[id]))
  }

  // ------------------------------------------------------------------
  // One page
  // ------------------------------------------------------------------

  /** The rows that a query limited to `n` leaves out are outranked by `n` others. */
  ghost predicate NewestRows(window: map<ID, Exchange>, rows: map<ID, Exchange>, n: nat) {
    && window.Keys <= rows.Keys
    && (forall id :: id in window ==> window[id] == rows[id])
    && (window == rows || |window| >= n)
    && (forall w, r :: w in window && r in rows && r !in window ==> Newer(KeyOf(rows[w]), KeyOf(rows[r])))
  }

  lemma UnionFiled(a: map<ID, Exchange>, b: map<ID, Exchange>)
    requires Filed(a) && Filed(b)
    ensures Filed(Union(a, b))
  {
  }

  lemma KeysSplit(items: map<ID, Exchange>, part: set<ID>)
    requires Filed(items) && part <= items.Keys
    ensures |MapKeys(map id | id in part :: items[id])| == |part|
  {
    var sub := map id | id in part :: items[id];
    KeyCount(sub);
    assert sub.Keys == part;
  }

  /**
    Asking SQLite for `limit` rows more than RAM holds is enough, whatever the
    two stores contain: at most one row is hidden per RAM entry.
   */
  lemma WindowSuffices(ram: map<ID, Exchange>, window: map<ID, Exchange>, rows: map<ID, Exchange>, limit: nat)
    requires Filed(ram) && Filed(rows)
    requires NewestRows(window, rows, limit + |ram|)
    ensures Cut(MapKeys(Union(ram, window)), limit) == Cut(MapKeys(Union(ram, rows)), limit)
    ensures |window| < |rows| || |Union(ram, window)| > limit <==> |Union(ram, rows)| > limit
  {
    if window != rows {
      VisibleCount(ram, window, limit);
      WindowCut(ram, window, rows, window.Keys - ram.Keys, limit);
      var r :| r in rows && r !in window;
      RowCounts(ram, window, rows, window.Keys - ram.Keys, r, limit);
    } else {
      assert |window| == |rows|;
    }
  }

  lemma VisibleCount(ram: map<ID, Exchange>, window: map<ID, Exchange>, limit: nat)
    requires |window| >= limit + |ram|
    ensures |window.Keys - ram.Keys| >= limit
  {
    SubsetSize(window.Keys * ram.Keys, ram.Keys);
    assert window.Keys == (window.Keys - ram.Keys) + window.Keys * ram.Keys;
  }

  lemma WindowCut(ram: map<ID, Exchange>, window: map<ID, Exchange>, rows: map<ID, Exchange>, visible: set<ID>,
                  limit: nat)
    requires Filed(ram) && Filed(rows) && visible == window.Keys - ram.Keys && |visible| >= limit
    requires NewestRows(window, rows, limit + |ram|)
    ensures Cut(MapKeys(Union(ram, window)), limit) == Cut(MapKeys(Union(ram, rows)), limit)
  {
    var above := MapKeys(map id | id in visible :: rows[id]);
    KeysSplit(rows, visible);
    var kept, all := Union(ram, window), Union(ram, rows);
    UnionFiled(ram, rows);
    UnionFiled(ram, window);
    forall k | k in above ensures k in MapKeys(kept) {
      assert k.id in visible && kept[k.id] == rows[k.id];
    }
    forall k | k in MapKeys(kept) ensures k in MapKeys(all) {
      KeyOwner(kept, k);
      assert all[k.id] == kept[k.id];
    }
    forall a, x | a in above && x in MapKeys(all) - MapKeys(kept) ensures Newer(a, x) {
      KeyOwner(all, x);
      assert x.id !in kept;
      assert x.id in rows && x.id !in window;
    }
    CutIgnoresOutranked(MapKeys(kept), MapKeys(all), above, limit);
  }

  lemma RowCounts(ram: map<ID, Exchange>, window: map<ID, Exchange>, rows: map<ID, Exchange>, visible: set<ID>,
                  r: ID, limit: nat)
    requires window.Keys <= rows.Keys && r in rows && r !in window
    requires visible == window.Keys - ram.Keys && |visible| >= limit
    requires |window| >= limit + |ram|
    ensures |window| < |rows| && |Union(ram, rows)| > limit
  {
    SubsetSize(window.Keys + {r}, rows.Keys);
    assert |window.Keys + {r}| == |window| + 1;
    assert rows.Keys <= Union(ram, rows).Keys;
    SubsetSize(rows.Keys, Union(ram, rows).Keys);
  }

  /**
    Filtering each store before merging is filtering the merged history,
    exactly when no row under the cursor has a RAM copy that is not.
   */
  lemma FilterThenMerge(ram: map<ID, Exchange>, rows: map<ID, Exchange>, cursor: Cursor)
    ensures Merged(ram, rows, cursor) == Older(Union(ram, rows), cursor)
       <==> forall id :: id in ram && id in rows && Under(KeyOf(rows[id]), cursor) ==> Under(KeyOf(ram[id]), cursor)
  {
    var left, right := Merged(ram, rows, cursor), Older(Union(ram, rows), cursor);
    if exists id :: id in ram && id in rows && Under(KeyOf(rows[id]), cursor) && !Under(KeyOf(ram[id]), cursor) {
      var id :| id in ram && id in rows && Under(KeyOf(rows[id]), cursor) && !Under(KeyOf(ram[id]), cursor);
      assert id in left && id !in right;
    } else {
      assert forall id :: id in left <==> id in right;
    }
  }

  /** Stores kept in step give the same history at every cursor. */
  lemma InStepMerge(ram: map<ID, Exchange>, rows: map<ID, Exchange>, cursor: Cursor)
    requires CopiesInStep(ram, rows)
    ensures Merged(ram, rows, cursor) == Older(Union(ram, rows), cursor)
  {
    FilterThenMerge(ram, rows, cursor);
  }

  // ------------------------------------------------------------------
  // The handler
  // ------------------------------------------------------------------

  datatype Reply = InvalidLimit | ResyncRequired | Page(items: seq<Exchange>, next: Cursor, hasMore: bool)

  /** The first page of `all`: its `limit` newest exchanges, and where to go on. */
  ghost predicate PageFrom(reply: Reply, all: map<ID, Exchange>, limit: nat) {
    Samples(reply, all, limit) && KeysOf(reply.items) == Cut(MapKeys(all), limit)
  }

  /** A page of as many exchanges of `all` as it can hold, each once; not necessarily the newest. */
  ghost predicate Samples(reply: Reply, all: map<ID, Exchange>, limit: nat) {
    && reply.Page?
    && (forall x :: x in reply.items ==> x.id in all && all[x.id] == x)
    && DistinctIDs(reply.items) && |reply.items| == (if |all| <= limit then |all| else limit)
    && reply.hasMore == (|all| > limit)
    && reply.next == if reply.hasMore && reply.items != [] then Some(KeyOf(reply.items[|reply.items| - 1])) else None
  }

  /** The page a request must produce: the newest `limit` exchanges under the cursor. */
  ghost predicate IsPage(reply: Reply, ram: map<ID, Exchange>, rows: map<ID, Exchange>, cursor: Cursor, limit: nat) {
    PageFrom(reply, Merged(ram, rows, cursor), limit)
  }

  /** The exchanges of a list that are under the cursor, in the order of the list. */
  function Filtered(items: seq<Exchange>, cursor: Cursor): seq<Exchange>
    decreases |items|
  {
    if items == [] then []
    else
      var last := items[|items| - 1];
      Filtered(items[..|items| - 1], cursor) + if Under(KeyOf(last), cursor) then [last] else []
  }

  /** The rows a page of RAM entries and `limit` more asks SQLite for. */
  ghost function Window(front: map<ID, Exchange>, under: map<ID, Exchange>, limit: nat): map<ID, Exchange> {
    NewestOf(under, limit + |front|)
  }

  /** What a page is cut from: a listing of RAM, filtered, or a listing of that together with the window. */
  ghost predicate Candidates(xs: seq<Exchange>, ram: map<ID, Exchange>, persistent: Option<map<ID, Exchange>>,
                             cursor: Cursor, limit: nat) {
    if persistent.None? then exists listing :: IsListing(listing, ram) && xs == Filtered(listing, cursor)
    else
      var front, under := Older(ram, cursor), Older(persistent.value, cursor);
      IsListing(xs, Union(front, Window(front, under, limit)))
  }

  function CutAt(xs: seq<Exchange>, more: bool, limit: nat): Reply {
    var hasMore := more || |xs| > limit;
    var page := Take(xs, limit);
    Page(page, if hasMore && page != [] then Some(KeyOf(page[|page| - 1])) else None, hasMore)
  }

  ghost predicate MoreRows(ram: map<ID, Exchange>, persistent: Option<map<ID, Exchange>>, cursor: Cursor, limit: nat) {
    persistent.Some? && |Older(persistent.value, cursor)| > limit + |Older(ram, cursor)|
  }

  /** What the handler answers once the cursor is accepted. */
  ghost predicate Answers(reply: Reply, ram: map<ID, Exchange>, persistent: Option<map<ID, Exchange>>,
                          cursor: Cursor, limit: nat) {
    exists xs :: Candidates(xs, ram, persistent, cursor, limit)
              && reply == CutAt(xs, MoreRows(ram, persistent, cursor, limit), limit)
  }

  ghost function RowsOf(persistent: Option<map<ID, Exchange>>): map<ID, Exchange> {
    if persistent.Some? then persistent.value else map[]
  }

  ghost predicate Retains(ram: map<ID, Exchange>, rows: map<ID, Exchange>, boundary: Key) {
    boundary in MapKeys(ram) || boundary in MapKeys(rows)
  }

  method OlderThan(items: seq<Exchange>, cursor: Cursor) returns (older: seq<Exchange>)
    ensures older == Filtered(items, cursor)
  {
    if cursor.None? {
      FilterNothing(items);
      return items;
    }
    older := [];
    for i := 0 to |items|
      invariant older == Filtered(items[..i], cursor)
    {
      assert items[..i + 1][..i] == items[..i];
      if Newer(cursor.value, KeyOf(items[i])) {
        older := older + [items[i]];
      }
    }
    assert items[..|items|] == items;
  }

  lemma {:induction false} FilterNothing(items: seq<Exchange>)
    ensures Filtered(items, None) == items
    decreases |items|
  {
    if items != [] {
      FilterNothing(items[..|items| - 1]);
    }
  }

  /** Filtering keeps exactly the exchanges under the cursor, in order. */
  lemma {:induction false} FilteredExactly(items: seq<Exchange>, cursor: Cursor)
    ensures forall x :: x in Filtered(items, cursor) <==> x in items && Under(KeyOf(x), cursor)
    ensures DistinctIDs(items) ==> DistinctIDs(Filtered(items, cursor))
    ensures NewestFirst(KeysOf(items)) ==> NewestFirst(KeysOf(Filtered(items, cursor)))
    decreases |items|
  {
    if items != [] {
      var n := |items| - 1;
      FilteredExactly(items[..n], cursor);
      assert items == items[..n] + [items[n]];
      OneMore(items[..n], Filtered(items[..n], cursor), items[n]);
    }
  }

  lemma OneMore(front: seq<Exchange>, kept: seq<Exchange>, last: Exchange)
    requires forall x :: x in kept ==> x in front
    ensures DistinctIDs(front + [last]) ==> DistinctIDs(front)
    ensures DistinctIDs(front + [last]) && DistinctIDs(kept) ==> DistinctIDs(kept + [last])
    ensures NewestFirst(KeysOf(front + [last])) ==> NewestFirst(KeysOf(front))
    ensures NewestFirst(KeysOf(front + [last])) && NewestFirst(KeysOf(kept)) ==> NewestFirst(KeysOf(kept + [last]))
  {
    var all := front + [last];
    var keys := KeysOf(all);
    assert forall i :: 0 <= i < |front| ==> all[i] == front[i];
    assert KeysOf(front) == keys[..|front|];
    forall i | 0 <= i < |kept|
      ensures DistinctIDs(all) ==> kept[i].id != last.id
      ensures NewestFirst(keys) ==> Newer(KeyOf(kept[i]), KeyOf(last))
    {
      assert kept[i] in front;
      var j :| 0 <= j < |front| && front[j] == kept[i];
      assert all[j] == kept[i] && all[|front|] == last;
      assert NewestFirst(keys) ==> Newer(keys[j], keys[|front|]);
    }
  }

  method AppendUnseen(seen: set<ID>, result: seq<Exchange>, source: seq<Exchange>)
    returns (seen': set<ID>, result': seq<Exchange>)
    requires forall x :: x in result ==> x.id in seen
    requires DistinctIDs(result)
    ensures forall x :: x in result' ==> x.id in seen'
    ensures DistinctIDs(result')
    ensures forall id :: id in seen' <==> id in seen || exists x :: x in source && x.id == id
    ensures forall x :: x in result' ==> x in result || (x in source && x.id !in seen)
    ensures forall x :: x in result ==> x in result'
    ensures DistinctIDs(source) ==> forall x :: x in source && x.id !in seen ==> x in result'
  {
    seen', result' := seen, result;
    for i := 0 to |source|
      invariant forall x :: x in result' ==> x.id in seen'
      invariant DistinctIDs(result')
      invariant forall id :: id in seen' <==> id in seen || exists x :: x in source[..i] && x.id == id
      invariant forall x :: x in result' ==> x in result || (x in source[..i] && x.id !in seen)
      invariant forall x :: x in result ==> x in result'
      invariant DistinctIDs(source) ==> forall x :: x in source[..i] && x.id !in seen ==> x in result'
    {
      assert source[..i + 1] == source[..i] + [source[i]];
      if source[i].id !in seen' {
        assert forall j :: 0 <= j < |result'| ==> result'[j] in result';
        seen' := seen' + {source[i].id};
        result' := result' + [source[i]];
      }
    }
    assert source[..|source|] == source;
  }

  /** Two passes over RAM and then the rows, skipping ids already seen, and a sort. */
  method MergeExchanges(memory: seq<Exchange>, persisted: seq<Exchange>,
                        ghost ram: map<ID, Exchange>, ghost window: map<ID, Exchange>) returns (merged: seq<Exchange>)
    requires Filed(ram) && Filed(window)
    requires Arranges(memory, ram) && Arranges(persisted, window)
    ensures IsListing(merged, Union(ram, window))
    ensures Steady(Union(ram, window)) ==> KeysOf(merged) == Newest(MapKeys(Union(ram, window)))
  {
    var seen, result := AppendUnseen({}, [], memory);
    seen, result := AppendUnseen(seen, result, persisted);
    assert Lists(result, Union(ram, window)) by {
      forall id ensures (exists x :: x in memory && x.id == id) <==> id in ram {
        if id in ram { assert ram[id] in memory; }
      }
    }
    merged := SortNewestFirst(result);
    assert Arranges(result, Union(ram, window)) && merged == Sorted(result);
    UnionFiled(ram, window);
    if Steady(Union(ram, window)) {
      SteadyListing(merged, Union(ram, window));
    }
  }

  /** The `n` newest of some exchanges. */
  ghost function NewestOf(items: map<ID, Exchange>, n: nat): map<ID, Exchange> {
    map id | id in items && KeyOf(items[id]) in Cut(MapKeys(items), n) :: items[id]
  }

  lemma NewestOfKeys(items: map<ID, Exchange>, n: nat)
    requires Filed(items)
    ensures MapKeys(NewestOf(items, n)) == Elements(Cut(MapKeys(items), n))
  {
    var keys := Newest(MapKeys(items));
    forall k ensures k in MapKeys(NewestOf(items, n)) <==> k in Take(keys, n) {
      KeyOwner(NewestOf(items, n), k);
      KeyOwner(items, k);
      TakeOrDrop(keys, n, k);
      assert k in keys <==> k in Elements(keys);
    }
  }

  lemma NewestOfSize(items: map<ID, Exchange>, n: nat)
    requires Filed(items)
    ensures |NewestOf(items, n)| == if |items| <= n then |items| else n
    ensures |items| <= n ==> NewestOf(items, n) == items
  {
    NewestOfKeys(items, n);
    KeyCount(items);
    KeyCount(NewestOf(items, n));
    SortedElementCount(Cut(MapKeys(items), n));
    if |items| <= n {
      forall id | id in items ensures id in NewestOf(items, n) {
        assert KeyOf(items[id]) in Elements(Newest(MapKeys(items)));
      }
    }
  }

  lemma NewestOfOutranks(items: map<ID, Exchange>, n: nat)
    requires Filed(items)
    ensures NewestRows(NewestOf(items, n), items, n)
  {
    var keys := Newest(MapKeys(items));
    NewestOfSize(items, n);
    forall w, r | w in NewestOf(items, n) && r in items && r !in NewestOf(items, n)
      ensures Newer(KeyOf(items[w]), KeyOf(items[r]))
    {
      assert KeyOf(items[r]) in Elements(keys);
      TakeOrDrop(keys, n, KeyOf(items[r]));
    }
  }

  /** The first `n` of the sorted rows are the `n` newest rows. */
  lemma SortedFront(sorted: seq<Exchange>, items: map<ID, Exchange>, n: nat)
    requires Filed(items)
    requires KeysOf(sorted) == Newest(MapKeys(items))
    requires Lists(sorted, items)
    ensures KeysOf(Take(sorted, n)) == Cut(MapKeys(items), n)
    ensures Arranges(Take(sorted, n), NewestOf(items, n))
  {
    KeysOfTake(sorted, n);
    var keys := KeysOf(sorted);
    forall i, j | 0 <= i < j < |sorted| ensures sorted[i].id != sorted[j].id {
      assert Newer(keys[i], keys[j]);
      assert sorted[i] in sorted && sorted[j] in sorted;
    }
    forall x ensures x in Take(sorted, n) <==> x in sorted && KeyOf(x) in Take(keys, n) {
      FrontMember(sorted, n, x);
    }
  }

  lemma FrontMember(sorted: seq<Exchange>, n: nat, x: Exchange)
    requires NewestFirst(KeysOf(sorted))
    ensures x in Take(sorted, n) <==> x in sorted && KeyOf(x) in Take(KeysOf(sorted), n)
  {
    KeysOfTake(sorted, n);
    var keys := KeysOf(sorted);
    if x in sorted && KeyOf(x) in Take(keys, n) {
      var i :| 0 <= i < |sorted| && sorted[i] == x;
      var j :| 0 <= j < |Take(keys, n)| && Take(keys, n)[j] == KeyOf(x);
      assert keys[i] == keys[j];
      assert i == j;
      assert Take(sorted, n)[j] == x;
    }
    if x in Take(sorted, n) {
      var i :| 0 <= i < |Take(sorted, n)| && Take(sorted, n)[i] == x;
      assert Take(keys, n)[i] == KeyOf(x);
    }
  }

  method SelectRows(rows: map<ID, Exchange>, cursor: Cursor) returns (found: seq<Exchange>)
    requires Filed(rows)
    ensures Arranges(found, Older(rows, cursor))
  {
    found := [];
    var todo := rows.Keys;
    while todo != {}
      invariant todo <= rows.Keys
      invariant DistinctIDs(found)
      invariant forall x :: x in found <==> x.id in rows && rows[x.id] == x && Under(KeyOf(x), cursor) && x.id !in todo
      decreases |todo|
    {
      var id :| id in todo;
      if cursor.None? || Newer(cursor.value, KeyOf(rows[id])) {
        assert forall i :: 0 <= i < |found| ==> found[i] in found && found[i].id != id;
        found := found + [rows[id]];
      }
      todo := todo - {id};
    }
  }

  /**
    The SQLite side of a page, `WHERE under the cursor ORDER BY completed_ns
    DESC, id DESC LIMIT n + 1`: the extra row only tells that there is more.
    Rows have no monotonic times, so this is the order of the keys.
   */
  method ListRows(rows: map<ID, Exchange>, cursor: Cursor, n: nat) returns (items: seq<Exchange>, hasMore: bool)
    requires Filed(rows) && Unstamped(rows) && n >= 1
    ensures KeysOf(items) == Cut(MapKeys(Older(rows, cursor)), n)
    ensures Arranges(items, NewestOf(Older(rows, cursor), n))
    ensures hasMore == (|Older(rows, cursor)| > n)
  {
    var found := SelectRows(rows, cursor);
    var sorted := SortNewestFirst(found);
    assert IsListing(sorted, Older(rows, cursor));
    SteadyListing(sorted, Older(rows, cursor));
    SortedFront(sorted, Older(rows, cursor), n);
    ReadAhead(sorted, Older(rows, cursor), n);
    var answer := Take(sorted, n + 1);
    hasMore := |answer| > n;
    items := Take(answer, n);
  }

  lemma ReadAhead(sorted: seq<Exchange>, items: map<ID, Exchange>, n: nat)
    requires Filed(items) && KeysOf(sorted) == Newest(MapKeys(items))
    ensures Take(Take(sorted, n + 1), n) == Take(sorted, n)
    ensures |Take(sorted, n + 1)| > n <==> |items| > n
  {
    KeyCount(items);
  }

  method CursorFound(items: seq<Exchange>, cursor: Key) returns (found: bool)
    ensures found <==> cursor in KeysOf(items)
  {
    for i := 0 to |items|
      invariant cursor !in KeysOf(items)[..i]
    {
      if KeyOf(items[i]) == cursor {
        assert KeysOf(items)[i] == cursor;
        return true;
      }
    }
    return false;
  }

  /** The RAM side merged with the rows SQLite returns. */
  method MergeRows(older: seq<Exchange>, rows: map<ID, Exchange>, cursor: Cursor, limit: nat,
                   ghost front: map<ID, Exchange>) returns (items: seq<Exchange>, more: bool)
    requires Filed(rows) && Unstamped(rows) && Filed(front) && limit >= 1
    requires Arranges(older, front)
    ensures IsListing(items, Union(front, Window(front, Older(rows, cursor), limit)))
    ensures more == (|Older(rows, cursor)| > limit + |front|)
  {
    hide Union, NewestOf, IsListing, Arranges, Steady, Cut;
    ArrangedCount(older, front);
    var persisted;
    persisted, more := ListRows(rows, cursor, limit + |older|);
    NewestOfFiled(Older(rows, cursor), limit + |older|);
    items := MergeExchanges(older, persisted, front, Window(front, Older(rows, cursor), limit));
  }

  lemma NewestOfFiled(items: map<ID, Exchange>, n: nat)
    requires Filed(items)
    ensures Filed(NewestOf(items, n))
  {
  }

  /** Cuts the merged list at the limit and says where the next page starts. */
  method CutPage(items: seq<Exchange>, persistentMore: bool, limit: nat) returns (reply: Reply)
    ensures reply == CutAt(items, persistentMore, limit)
  {
    var hasMore := persistentMore || |items| > limit;
    var page := Take(items, limit);
    reply := Page(page, if hasMore && page != [] then Some(KeyOf(page[|page| - 1])) else None, hasMore);
  }

  /** Is the cursor's exchange still retained, in RAM or in SQLite? */
  method Locate(items: seq<Exchange>, persistent: Option<map<ID, Exchange>>, cursor: Key,
                ghost ram: map<ID, Exchange>) returns (found: bool)
    requires Filed(ram) && Arranges(items, ram)
    requires persistent.Some? ==> Filed(persistent.value)
    ensures found <==> Retains(ram, RowsOf(persistent), cursor)
  {
    found := CursorFound(items, cursor);
    ListsKeys(items, ram);
    assert cursor in KeysOf(items) <==> cursor in Elements(KeysOf(items));
    if !found && persistent.Some? {
      found := cursor.id in persistent.value && KeyOf(persistent.value[cursor.id]) == cursor;
      KeyOwner(persistent.value, cursor);
    }
  }

  /**
    The list handler. A missing limit is 50; a limit outside 1..200 is refused.
    The page is the right one at least while no two datagrams in RAM are ordered
    differently by their wall-clock and their monotonic times.
   */
  method Exchanges(memory: Memory, persistent: Option<map<ID, Exchange>>, rawLimit: Option<int>, cursor: Cursor)
    returns (reply: Reply)
    requires memory.Valid()
    requires persistent.Some? ==> Filed(persistent.value) && Unstamped(persistent.value)
    ensures var limit := if rawLimit.Some? then rawLimit.value else 50;
            if !(1 <= limit <= 200) then reply.InvalidLimit?
            else if cursor.Some? && !Retains(memory.items, RowsOf(persistent), cursor.value) then reply.ResyncRequired?
            else
              && Answers(reply, memory.items, persistent, cursor, limit)
              && Samples(reply, Merged(memory.items, RowsOf(persistent), cursor), limit)
              && (Steady(memory.items) ==> IsPage(reply, memory.items, RowsOf(persistent), cursor, limit))
  {
    hide Merged, IsListing, Steady, Samples, IsPage, Filtered, Retains, Arranges;
    var limit := 50;
    if rawLimit.Some? {
      if rawLimit.value < 1 || rawLimit.value > 200 {
        return InvalidLimit;
      }
      limit := rawLimit.value;
    }
    var items := memory.List();
    if cursor.Some? {
      var found := Locate(items, persistent, cursor.value, memory.items);
      if !found {
        return ResyncRequired;
      }
    }
    reply := PageUnder(items, persistent, cursor, limit, memory.items);
    AnswerSamples(reply, memory.items, persistent, cursor, limit);
    if Steady(memory.items) {
      SteadyUnder(memory.items, cursor);
      SteadyAnswer(reply, memory.items, persistent, cursor, limit);
    }
  }

  lemma SteadyUnder(ram: map<ID, Exchange>, cursor: Cursor)
    requires Steady(ram)
    ensures Steady(Older(ram, cursor))
  {
  }

  /** Filter, query, merge, cut. */
  method PageUnder(items: seq<Exchange>, persistent: Option<map<ID, Exchange>>, cursor: Cursor, limit: nat,
                   ghost ram: map<ID, Exchange>) returns (reply: Reply)
    requires Filed(ram) && limit >= 1 && IsListing(items, ram) && Arranges(items, ram)
    requires persistent.Some? ==> Filed(persistent.value) && Unstamped(persistent.value)
    ensures Answers(reply, ram, persistent, cursor, limit)
  {
    hide IsListing, Arranges, Filtered, CutAt, Unstamped;
    var merged := OlderThan(items, cursor);
    var persistentMore := false;
    if persistent.Some? {
      FilteredArranges(items, ram, cursor);
      merged, persistentMore := MergeRows(merged, persistent.value, cursor, limit, Older(ram, cursor));
    }
    reply := CutPage(merged, persistentMore, limit);
    assert Candidates(merged, ram, persistent, cursor, limit);
  }

  // ------------------------------------------------------------------
  // What the handler's answers are
  // ------------------------------------------------------------------

  lemma FilteredArranges(listing: seq<Exchange>, ram: map<ID, Exchange>, cursor: Cursor)
    requires Arranges(listing, ram)
    ensures Arranges(Filtered(listing, cursor), Older(ram, cursor))
  {
    FilteredExactly(listing, cursor);
  }

  lemma UnionWithNothing(ram: map<ID, Exchange>)
    ensures Union(ram, map[]) == ram
  {
  }

  /** Some exchanges make the same page as all of them; `more` says that rows were left out. */
  ghost predicate SamePage(some: map<ID, Exchange>, all: map<ID, Exchange>, more: bool, limit: nat) {
    && Filed(some) && Filed(all)
    && (forall id :: id in some ==> id in all && all[id] == some[id])
    && Cut(MapKeys(some), limit) == Cut(MapKeys(all), limit)
    && (more || |some| > limit <==> |all| > limit)
    && (|all| <= limit ==> |some| == |all|)
    && (|all| > limit ==> |some| >= limit)
  }

  /** The window loses nothing of the page and tells whether there is more. */
  lemma WindowedPage(front: map<ID, Exchange>, under: map<ID, Exchange>, limit: nat)
    requires Filed(front) && Filed(under)
    ensures SamePage(Union(front, Window(front, under, limit)), Union(front, under), |under| > limit + |front|, limit)
  {
    hide NewestOf, NewestRows, Cut, Union, Filed, MapKeys;
    var window := Window(front, under, limit);
    NewestOfOutranks(under, limit + |front|);
    NewestOfSize(under, limit + |front|);
    NewestOfFiled(under, limit + |front|);
    UnionFiled(front, window);
    UnionFiled(front, under);
    WindowSuffices(front, window, under, limit);
    WindowPart(front, window, under, limit);
  }

  lemma WindowPart(front: map<ID, Exchange>, window: map<ID, Exchange>, under: map<ID, Exchange>, limit: nat)
    requires NewestRows(window, under, limit + |front|)
    ensures var some, all := Union(front, window), Union(front, under);
            && (forall id :: id in some ==> id in all && all[id] == some[id])
            && (window != under ==> |some| >= limit)
  {
    if window != under {
      VisibleCount(front, window, limit);
      SubsetSize(window.Keys - front.Keys, Union(front, window).Keys);
    }
  }

  /** The list a page is cut from is a part of the merged history that decides its page. */
  ghost predicate Decides(xs: seq<Exchange>, more: bool, all: map<ID, Exchange>, limit: nat) {
    && DistinctIDs(xs) && (forall x :: x in xs ==> x.id in all && all[x.id] == x)
    && (more || |xs| > limit <==> |all| > limit)
    && (|all| <= limit ==> |xs| == |all|)
    && (|all| > limit ==> |xs| >= limit)
  }

  lemma CandidatesDecide(xs: seq<Exchange>, ram: map<ID, Exchange>, persistent: Option<map<ID, Exchange>>,
                         cursor: Cursor, limit: nat)
    requires Filed(ram) && Filed(RowsOf(persistent))
    requires Candidates(xs, ram, persistent, cursor, limit)
    ensures Decides(xs, MoreRows(ram, persistent, cursor, limit), Merged(ram, RowsOf(persistent), cursor), limit)
  {
    var front, under := Older(ram, cursor), Older(RowsOf(persistent), cursor);
    if persistent.None? {
      var listing :| IsListing(listing, ram) && xs == Filtered(listing, cursor);
      ListingArranges(listing, ram);
      FilteredArranges(listing, ram, cursor);
      ArrangedCount(xs, front);
      assert under == map[];
      UnionWithNothing(front);
    } else {
      var some := Union(front, Window(front, under, limit));
      ListingArranges(xs, some);
      WindowedPage(front, under, limit);
      ArrangedCount(xs, some);
    }
  }

  lemma DecidedPage(xs: seq<Exchange>, more: bool, all: map<ID, Exchange>, limit: nat)
    requires Decides(xs, more, all, limit)
    ensures Samples(CutAt(xs, more, limit), all, limit)
  {
    KeysOfTake(xs, limit);
  }

  /** Whatever the clocks did: as many exchanges under the cursor as fit, each once, and rightly told whether there are more. */
  lemma AnswerSamples(reply: Reply, ram: map<ID, Exchange>, persistent: Option<map<ID, Exchange>>, cursor: Cursor,
                      limit: nat)
    requires Filed(ram) && Filed(RowsOf(persistent))
    requires Answers(reply, ram, persistent, cursor, limit)
    ensures Samples(reply, Merged(ram, RowsOf(persistent), cursor), limit)
  {
    var more := MoreRows(ram, persistent, cursor, limit);
    var xs :| Candidates(xs, ram, persistent, cursor, limit) && reply == CutAt(xs, more, limit);
    hide Candidates, Merged, Samples, Decides, CutAt;
    CandidatesDecide(xs, ram, persistent, cursor, limit);
    DecidedPage(xs, more, Merged(ram, RowsOf(persistent), cursor), limit);
  }

  lemma SteadyUnion(front: map<ID, Exchange>, window: map<ID, Exchange>)
    requires Steady(front) && Unstamped(window)
    ensures Steady(Union(front, window))
  {
  }

  lemma SteadyCandidates(xs: seq<Exchange>, ram: map<ID, Exchange>, persistent: Option<map<ID, Exchange>>,
                         cursor: Cursor, limit: nat)
    requires Filed(ram) && Filed(RowsOf(persistent)) && Unstamped(RowsOf(persistent))
    requires Steady(if persistent.Some? then Older(ram, cursor) else ram)
    requires Candidates(xs, ram, persistent, cursor, limit)
    ensures KeysOf(Take(xs, limit)) == Cut(MapKeys(Merged(ram, RowsOf(persistent), cursor)), limit)
  {
    var front, under := Older(ram, cursor), Older(RowsOf(persistent), cursor);
    KeysOfTake(xs, limit);
    if persistent.None? {
      var listing :| IsListing(listing, ram) && xs == Filtered(listing, cursor);
      SteadyListing(listing, ram);
      ListingArranges(listing, ram);
      FilteredExactly(listing, cursor);
      FilteredArranges(listing, ram, cursor);
      ListsKeys(xs, front);
      SortedIsNewest(KeysOf(xs));
      assert under == map[];
      UnionWithNothing(front);
    } else {
      var window := Window(front, under, limit);
      WindowedPage(front, under, limit);
      assert Unstamped(window);
      SteadyUnion(front, window);
      SteadyListing(xs, Union(front, window));
    }
  }

  /** The answer is the page the request must produce. */
  lemma SteadyAnswer(reply: Reply, ram: map<ID, Exchange>, persistent: Option<map<ID, Exchange>>, cursor: Cursor,
                     limit: nat)
    requires Filed(ram) && Filed(RowsOf(persistent)) && Unstamped(RowsOf(persistent))
    requires Steady(if persistent.Some? then Older(ram, cursor) else ram)
    requires Answers(reply, ram, persistent, cursor, limit)
    ensures IsPage(reply, ram, RowsOf(persistent), cursor, limit)
  {
    AnswerSamples(reply, ram, persistent, cursor, limit);
    var more := MoreRows(ram, persistent, cursor, limit);
    var xs :| Candidates(xs, ram, persistent, cursor, limit) && reply == CutAt(xs, more, limit);
    hide Candidates, Merged, Samples, MoreRows, Steady;
    SteadyCandidates(xs, ram, persistent, cursor, limit);
  }

  /**
    With SQLite enabled every page under a cursor is the right one, whatever its
    limit and the order of RAM's map, exactly when no two datagrams that RAM
    holds under the cursor are ordered differently by their wall-clock and their
    monotonic times.
   */
  lemma PagesRightExactly(ram: map<ID, Exchange>, rows: map<ID, Exchange>, cursor: Cursor)
    requires Filed(ram) && Filed(rows) && Unstamped(rows)
    ensures (forall limit: nat, reply :: limit >= 1 && Answers(reply, ram, Some(rows), cursor, limit) ==>
               IsPage(reply, ram, rows, cursor, limit))
       <==> Steady(Older(ram, cursor))
  {
    if Steady(Older(ram, cursor)) {
      forall limit: nat, reply | limit >= 1 && Answers(reply, ram, Some(rows), cursor, limit)
        ensures IsPage(reply, ram, rows, cursor, limit)
      {
        SteadyAnswer(reply, ram, Some(rows), cursor, limit);
      }
    } else {
      var limit, reply := WrongPage(ram, rows, cursor);
    }
  }

  lemma WrongPage(ram: map<ID, Exchange>, rows: map<ID, Exchange>, cursor: Cursor) returns (limit: nat, reply: Reply)
    requires Filed(ram) && Filed(rows) && !Steady(Older(ram, cursor))
    ensures limit >= 1 && Answers(reply, ram, Some(rows), cursor, limit)
    ensures !IsPage(reply, ram, rows, cursor, limit)
  {
    var front, under := Older(ram, cursor), Older(rows, cursor);
    UnionFiled(front, under);
    UnsteadyUnion(front, under);
    hide *;
    var xs, p, q := UnsteadyIsWrong(Union(front, under));
    limit := |xs| + |under| + 1;
    reply := CutAt(xs, MoreRows(ram, Some(rows), cursor, limit), limit);
    WholeHistory(xs, ram, rows, cursor, limit);
    WrongOrder(xs, p, q, reply, ram, rows, cursor, limit);
  }

  /** A limit that takes every row answers with a whole listing. */
  lemma WholeHistory(xs: seq<Exchange>, ram: map<ID, Exchange>, rows: map<ID, Exchange>, cursor: Cursor, limit: nat)
    requires Filed(rows) && limit >= |Older(rows, cursor)|
    requires IsListing(xs, Union(Older(ram, cursor), Older(rows, cursor)))
    ensures Answers(CutAt(xs, MoreRows(ram, Some(rows), cursor, limit), limit), ram, Some(rows), cursor, limit)
  {
    WindowWhole(Older(ram, cursor), Older(rows, cursor), limit);
    hide Union, IsListing, NewestOf, Older, CutAt, MoreRows, Window, Filed;
    assert Candidates(xs, ram, Some(rows), cursor, limit);
  }

  lemma WindowWhole(front: map<ID, Exchange>, under: map<ID, Exchange>, limit: nat)
    requires Filed(under) && limit >= |under|
    ensures Window(front, under, limit) == under
  {
    NewestOfSize(under, limit + |front|);
  }

  lemma UnsteadyUnion(front: map<ID, Exchange>, under: map<ID, Exchange>)
    requires !Steady(front)
    ensures !Steady(Union(front, under))
  {
    var i, j :| i in front && j in front && !SteadyPair(front[i], front[j]);
    var all := Union(front, under);
    assert all[i] == front[i] && all[j] == front[j];
  }

  lemma WrongOrder(xs: seq<Exchange>, p: nat, q: nat, reply: Reply, ram: map<ID, Exchange>, rows: map<ID, Exchange>,
                   cursor: Cursor, limit: nat)
    requires p < q < |xs| <= limit && Newer(KeyOf(xs[q]), KeyOf(xs[p]))
    requires reply.Page? && reply.items == xs
    ensures !IsPage(reply, ram, rows, cursor, limit)
  {
    var front := Cut(MapKeys(Merged(ram, rows, cursor)), limit);
    assert forall i, j :: 0 <= i < j < |front| ==> Newer(front[i], front[j]);
    assert KeysOf(xs)[p] == KeyOf(xs[p]) && KeysOf(xs)[q] == KeyOf(xs[q]);
  }
}
