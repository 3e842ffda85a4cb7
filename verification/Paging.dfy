/** Following `next_cursor` while the stores change between requests (internal/httpapi/exchanges.go). */
module Paging {
  import opened Common
  import opened Ordering
  import opened Capture
  import opened Listing
  import opened Store
  import opened History

  /** What RAM and SQLite hold when a request is served. */
  datatype Stores = Stores(ram: map<ID, Exchange>, rows: map<ID, Exchange>)

  ghost predicate Consistent(s: Stores) {
    Filed(s.ram) && Filed(s.rows) && Unstamped(s.rows) && CopiesInStep(s.ram, s.rows)
  }

  /** What the list handler answers from these stores. Without SQLite there are no rows. */
  ghost predicate Answered(reply: Reply, s: Stores, cursor: Cursor, limit: nat) {
    || Answers(reply, s.ram, Some(s.rows), cursor, limit)
    || (s.rows == map[] && Answers(reply, s.ram, None, cursor, limit))
  }

  ghost function KeysUnder(s: Stores, cursor: Cursor): set<Key> {
    MapKeys(Merged(s.ram, s.rows, cursor))
  }

  /** What a client at `cursor` has still to see. */
  ghost function Remaining(s: Stores, cursor: Cursor): seq<Key> {
    Newest(KeysUnder(s, cursor))
  }

  ghost function AllKeys(s: Stores): set<Key> {
    MapKeys(Union(s.ram, s.rows))
  }

  lemma UnderUnion(s: Stores, cursor: Cursor, k: Key)
    requires Consistent(s)
    ensures k in KeysUnder(s, cursor) <==> k in AllKeys(s) && Under(k, cursor)
  {
    InStepMerge(s.ram, s.rows, cursor);
    UnionFiled(s.ram, s.rows);
    KeyOwner(Union(s.ram, s.rows), k);
    KeyOwner(Older(Union(s.ram, s.rows), cursor), k);
  }

  lemma UnderCount(s: Stores, cursor: Cursor)
    requires Consistent(s)
    ensures |Remaining(s, cursor)| == |Merged(s.ram, s.rows, cursor)|
  {
    UnionFiled(Older(s.ram, cursor), Older(s.rows, cursor));
    KeyCount(Merged(s.ram, s.rows, cursor));
  }

  lemma UnderBoundary(s: Stores, cursor: Cursor, boundary: Key)
    requires Consistent(s) && Under(boundary, cursor)
    ensures KeysUnder(s, Some(boundary)) == Below(KeysUnder(s, cursor), boundary)
  {
    forall k ensures k in KeysUnder(s, Some(boundary)) <==> k in Below(KeysUnder(s, cursor), boundary) {
      UnderUnion(s, cursor, k);
      UnderUnion(s, Some(boundary), k);
    }
  }

  /**
    While no two datagrams in RAM are ordered differently by their two clocks,
    one request returns the front of what remains and a cursor for exactly the rest.
   */
  lemma PageAdvances(s: Stores, cursor: Cursor, limit: nat, reply: Reply)
    requires Consistent(s) && Steady(s.ram) && limit >= 1
    requires Answered(reply, s, cursor, limit)
    ensures reply.Page? && KeysOf(reply.items) == Take(Remaining(s, cursor), limit)
    ensures reply.hasMore <==> |Remaining(s, cursor)| > limit
    ensures reply.hasMore ==> reply.next.Some? && Remaining(s, reply.next) == Drop(Remaining(s, cursor), limit)
  {
    AnsweredIsPage(s, cursor, limit, reply);
    hide *;
    IsPageAdvances(s, cursor, limit, reply);
  }

  lemma IsPageAdvances(s: Stores, cursor: Cursor, limit: nat, reply: Reply)
    requires Consistent(s) && limit >= 1 && IsPage(reply, s.ram, s.rows, cursor, limit)
    ensures reply.Page? && KeysOf(reply.items) == Take(Remaining(s, cursor), limit)
    ensures reply.hasMore <==> |Remaining(s, cursor)| > limit
    ensures reply.hasMore ==> reply.next.Some? && Remaining(s, reply.next) == Drop(Remaining(s, cursor), limit)
  {
    UnderCount(s, cursor);
    var keys := Remaining(s, cursor);
    if reply.hasMore {
      var boundary := keys[limit - 1];
      assert reply.next == Some(boundary) by {
        assert KeyOf(reply.items[limit - 1]) == KeysOf(reply.items)[limit - 1];
      }
      UnderUnion(s, cursor, boundary);
      assert boundary in Elements(keys);
      UnderBoundary(s, cursor, boundary);
      NewestBelow(KeysUnder(s, cursor), limit);
    }
  }

  lemma AnsweredIsPage(s: Stores, cursor: Cursor, limit: nat, reply: Reply)
    requires Consistent(s) && Steady(s.ram)
    requires Answered(reply, s, cursor, limit)
    ensures IsPage(reply, s.ram, s.rows, cursor, limit)
  {
    hide Answers, IsPage;
    SteadyUnder(s.ram, cursor);
    if Answers(reply, s.ram, Some(s.rows), cursor, limit) {
      SteadyAnswer(reply, s.ram, Some(s.rows), cursor, limit);
    } else {
      SteadyAnswer(reply, s.ram, None, cursor, limit);
    }
  }

  // ------------------------------------------------------------------
  // Changes between two requests
  // ------------------------------------------------------------------

  datatype Change =
    | Record(x: Exchange)   // an exchange is saved in RAM
    | Evict(id: ID)         // RAM drops an exchange
    | Persist(x: Exchange)  // the writer stores an exchange

  function Apply(s: Stores, c: Change): Stores {
    match c
    case Record(x) => s.(ram := s.ram[x.id := x])
    case Evict(id) => s.(ram := s.ram - {id})
    case Persist(x) => s.(rows := s.rows[x.id := Stored(x)])
  }

  /** A save fills RAM, an eviction takes out of it, and the writer fills the rows, each for one id. */
  lemma ChangesExactly(s: Stores, c: Change, id: ID)
    ensures var t := Apply(s, c);
            && (c == Evict(id) ==> id !in t.ram)
            && (c.Record? && c.x.id == id ==> id in t.ram && t.ram[id] == c.x)
            && (c.Persist? && c.x.id == id ==> id in t.rows && t.rows[id] == c.x.(monotonic := None))
            && (!c.Persist? || c.x.id != id ==>
                  (id in t.rows <==> id in s.rows) && (id in s.rows ==> t.rows[id] == s.rows[id]))
            && (c != Evict(id) && (!c.Record? || c.x.id != id) ==>
                  (id in t.ram <==> id in s.ram) && (id in s.ram ==> t.ram[id] == s.ram[id]))
  {
  }

  /** Both stores already show `x` at its place, wherever they hold it: only its other fields change. */
  ghost predicate InPlace(s: Stores, x: Exchange) {
    && (x.id in s.ram || x.id in s.rows)
    && (x.id in s.ram ==> KeyOf(s.ram[x.id]) == KeyOf(x))
    && (x.id in s.rows ==> KeyOf(s.rows[x.id]) == KeyOf(x))
  }

  /** A save newer than the boundary of an exchange no store shows at or below it. */
  ghost predicate Ahead(s: Stores, x: Exchange, boundary: Key) {
    && Newer(KeyOf(x), boundary)
    && (x.id in s.ram ==> Newer(KeyOf(s.ram[x.id]), boundary))
    && (x.id in s.rows ==> Newer(KeyOf(s.rows[x.id]), boundary) && !Newer(KeyOf(x), KeyOf(s.rows[x.id])))
  }

  /**
    Traffic arriving after the boundary, saves that leave an exchange in its
    place, eviction of exchanges SQLite already holds, and persistence of
    exchanges RAM holds.
   */
  ghost predicate Quiet(s: Stores, c: Change, boundary: Key) {
    match c
    case Record(x) => InPlace(s, x) || Ahead(s, x, boundary)
    case Evict(id) => id in s.ram && id in s.rows && KeyOf(s.rows[id]) == KeyOf(s.ram[id])
    case Persist(x) =>
      && x.id in s.ram && KeyOf(s.ram[x.id]) == KeyOf(x)
      && (x.id in s.rows ==> KeyOf(s.rows[x.id]) == KeyOf(x))
  }

  lemma QuietKeepsConsistent(s: Stores, c: Change, boundary: Key)
    requires Consistent(s) && Quiet(s, c, boundary)
    ensures Consistent(Apply(s, c))
  {
  }

  function IdOf(c: Change): ID {
    match c
    case Record(x) => x.id
    case Evict(id) => id
    case Persist(x) => x.id
  }

  /** Only the entry of `id` differs, and it keeps its place or is newer than the boundary. */
  ghost predicate Shifted(before: map<ID, Exchange>, after: map<ID, Exchange>, id: ID, boundary: Key) {
    && before - {id} == after - {id} && id in after
    && ((id in before && KeyOf(before[id]) == KeyOf(after[id]))
        || (Newer(KeyOf(after[id]), boundary) && (id in before ==> Newer(KeyOf(before[id]), boundary))))
  }

  lemma QuietShifts(s: Stores, c: Change, boundary: Key)
    requires Consistent(s) && Quiet(s, c, boundary)
    ensures var t := Apply(s, c);
            Shifted(Union(s.ram, s.rows), Union(t.ram, t.rows), IdOf(c), boundary)
  {
    var t := Apply(s, c);
    var before, after := Union(s.ram, s.rows), Union(t.ram, t.rows);
    forall id | id != IdOf(c) ensures (id in before <==> id in after) && (id in before ==> before[id] == after[id]) {
    }
    assert before - {IdOf(c)} == after - {IdOf(c)};
  }

  lemma ShiftKeepsKey(before: map<ID, Exchange>, after: map<ID, Exchange>, id: ID, boundary: Key, k: Key)
    requires Filed(before) && Filed(after) && Shifted(before, after, id, boundary)
    requires !Newer(k, boundary)
    ensures k in MapKeys(before) <==> k in MapKeys(after)
  {
    KeyOwner(before, k);
    KeyOwner(after, k);
    if k.id != id {
      assert k.id in before <==> k.id in before - {id};
      assert k.id in after <==> k.id in after - {id};
      assert k.id in before ==> before[k.id] == (before - {id})[k.id] == after[k.id];
    }
  }

  lemma QuietKeepsKey(s: Stores, c: Change, boundary: Key, k: Key)
    requires Consistent(s) && Quiet(s, c, boundary)
    requires !Newer(k, boundary)
    ensures k in AllKeys(s) <==> k in AllKeys(Apply(s, c))
  {
    var t := Apply(s, c);
    QuietKeepsConsistent(s, c, boundary);
    QuietShifts(s, c, boundary);
    UnionFiled(s.ram, s.rows);
    UnionFiled(t.ram, t.rows);
    hide Quiet, Shifted;
    ShiftKeepsKey(Union(s.ram, s.rows), Union(t.ram, t.rows), IdOf(c), boundary, k);
  }

  /** A quiet change neither hides nor adds anything a client at the boundary has still to see. */
  lemma QuietKeepsRemaining(s: Stores, c: Change, boundary: Key)
    requires Consistent(s) && Quiet(s, c, boundary)
    ensures Consistent(Apply(s, c))
    ensures Remaining(Apply(s, c), Some(boundary)) == Remaining(s, Some(boundary))
    ensures Retains(s.ram, s.rows, boundary) ==> Retains(Apply(s, c).ram, Apply(s, c).rows, boundary)
  {
    var t := Apply(s, c);
    QuietKeepsConsistent(s, c, boundary);
    forall k ensures k in KeysUnder(s, Some(boundary)) <==> k in KeysUnder(t, Some(boundary)) {
      if !Newer(k, boundary) {
        QuietKeepsKey(s, c, boundary, k);
      }
      UnderUnion(s, Some(boundary), k);
      UnderUnion(t, Some(boundary), k);
    }
    assert KeysUnder(s, Some(boundary)) == KeysUnder(t, Some(boundary));
    KeyOwner(s.ram, boundary);
    KeyOwner(s.rows, boundary);
    KeyOwner(t.ram, boundary);
    KeyOwner(t.rows, boundary);
  }

  function ApplyAll(s: Stores, changes: seq<Change>): Stores
    decreases |changes|
  {
    if changes == [] then s else ApplyAll(Apply(s, changes[0]), changes[1..])
  }

  /** The changes happen one after another, each where the ones before have left the stores. */
  lemma {:induction false} ChangesAddUp(s: Stores, changes: seq<Change>, c: Change)
    ensures ApplyAll(s, []) == s
    ensures ApplyAll(s, changes + [c]) == Apply(ApplyAll(s, changes), c)
    decreases |changes|
  {
    if changes == [] {
      assert [] + [c] == [c] && [c][1..] == [];
    } else {
      assert (changes + [c])[1..] == changes[1..] + [c];
      ChangesAddUp(Apply(s, changes[0]), changes[1..], c);
    }
  }

  ghost predicate AllQuiet(s: Stores, changes: seq<Change>, boundary: Key)
    decreases |changes|
  {
    changes == [] || (Quiet(s, changes[0], boundary) && AllQuiet(Apply(s, changes[0]), changes[1..], boundary))
  }

  /** Any run of quiet changes between two requests. */
  lemma {:induction false} QuietRunKeepsRemaining(s: Stores, changes: seq<Change>, boundary: Key)
    requires Consistent(s) && AllQuiet(s, changes, boundary)
    ensures Consistent(ApplyAll(s, changes))
    ensures Remaining(ApplyAll(s, changes), Some(boundary)) == Remaining(s, Some(boundary))
    ensures Retains(s.ram, s.rows, boundary) ==>
              Retains(ApplyAll(s, changes).ram, ApplyAll(s, changes).rows, boundary)
    decreases |changes|
  {
    if changes != [] {
      QuietKeepsRemaining(s, changes[0], boundary);
      QuietRunKeepsRemaining(Apply(s, changes[0]), changes[1..], boundary);
    }
  }

  // ------------------------------------------------------------------
  // Walks
  // ------------------------------------------------------------------

  /** One request of a walk: the stores it met, the cursor it sent, the page it got. */
  datatype Visit = Visit(stores: Stores, cursor: Cursor, reply: Reply)

  ghost predicate Served(v: Visit, limit: nat) {
    && Consistent(v.stores) && Steady(v.stores.ram)
    && Answered(v.reply, v.stores, v.cursor, limit)
  }

  /** The next request sends the cursor it was given, and meets the same remaining history. */
  ghost predicate LeadsTo(v: Visit, w: Visit) {
    && v.reply.Page? && v.reply.hasMore
    && w.cursor == v.reply.next
    && Remaining(w.stores, w.cursor) == Remaining(v.stores, w.cursor)
  }

  ghost predicate IsWalk(walk: seq<Visit>, limit: nat) {
    && walk != []
    && Served(walk[0], limit)
    && (|walk| > 1 ==> LeadsTo(walk[0], walk[1]) && IsWalk(walk[1..], limit))
  }

  ghost function Seen(walk: seq<Visit>): seq<Key> {
    if walk == [] || !walk[0].reply.Page? then [] else KeysOf(walk[0].reply.items) + Seen(walk[1..])
  }

  /** What a client that got this page last has not seen yet. */
  ghost function Unseen(last: Visit): seq<Key> {
    if last.reply.Page? && last.reply.hasMore then Remaining(last.stores, last.reply.next) else []
  }

  ghost predicate IsLast(v: Visit) {
    v.reply.Page? && !v.reply.hasMore
  }

  lemma ServedIsPage(v: Visit, limit: nat)
    requires Served(v, limit)
    ensures v.reply.Page? && IsPage(v.reply, v.stores.ram, v.stores.rows, v.cursor, limit)
  {
    AnsweredIsPage(v.stores, v.cursor, limit, v.reply);
  }

  lemma ServedConsistent(v: Visit, limit: nat)
    requires Served(v, limit)
    ensures Consistent(v.stores)
  {
  }

  lemma FirstPage(v: Visit, limit: nat)
    requires limit >= 1 && Served(v, limit)
    ensures v.reply.Page?
    ensures KeysOf(v.reply.items) + Unseen(v) == Remaining(v.stores, v.cursor)
    ensures v.reply.hasMore ==> |KeysOf(v.reply.items)| == limit
  {
    ServedIsPage(v, limit);
    PageAdvances(v.stores, v.cursor, limit, v.reply);
    FrontAndRest(Remaining(v.stores, v.cursor), limit);
  }

  lemma FrontAndRest(keys: seq<Key>, limit: nat)
    ensures Take(keys, limit) + Drop(keys, limit) == keys
    ensures |keys| <= limit ==> Take(keys, limit) + [] == keys
    ensures |keys| > limit ==> |Take(keys, limit)| == limit
  {
  }

  lemma Joined(shown: seq<Key>, seen: seq<Key>, unseen: seq<Key>, remaining: seq<Key>)
    requires seen + unseen == remaining
    ensures (shown + seen) + unseen == shown + remaining
  {
  }

  lemma UnseenIsNext(v: Visit, w: Visit)
    requires LeadsTo(v, w)
    ensures Unseen(v) == Remaining(w.stores, w.cursor)
    ensures v.reply.Page? && v.reply.hasMore
  {
  }

  lemma {:induction false} WalkPartitions(walk: seq<Visit>, limit: nat)
    requires limit >= 1 && IsWalk(walk, limit)
    ensures Seen(walk) + Unseen(walk[|walk| - 1]) == Remaining(walk[0].stores, walk[0].cursor)
    ensures limit * (|walk| - 1) <= |Seen(walk)|
    decreases |walk|
  {
    hide Remaining, Served, LeadsTo, Unseen;
    FirstPage(walk[0], limit);
    var shown := KeysOf(walk[0].reply.items);
    var rest := walk[1..];
    if |walk| == 1 {
      Joined(shown, Seen(rest), Unseen(walk[0]), Unseen(walk[0]));
    } else {
      UnseenIsNext(walk[0], walk[1]);
      WalkPartitions(rest, limit);
      Joined(shown, Seen(rest), Unseen(rest[|rest| - 1]), Remaining(rest[0].stores, rest[0].cursor));
      assert limit * |rest| == limit + limit * (|rest| - 1);
    }
  }

  /**
    Following `next_cursor` to the end lists the history under the first cursor
    exactly once, newest first, however many quiet changes happen on the way,
    and the end is reached within one request per `limit` exchanges.
   */
  lemma CompleteWalk(walk: seq<Visit>, limit: nat)
    requires limit >= 1 && IsWalk(walk, limit)
    requires IsLast(walk[|walk| - 1])
    ensures Seen(walk) == Remaining(walk[0].stores, walk[0].cursor)
    ensures walk[0].cursor == None ==>
              var first := walk[0].stores; Seen(walk) == Newest(MapKeys(Union(first.ram, first.rows)))
    ensures limit * (|walk| - 1) <= |Remaining(walk[0].stores, walk[0].cursor)|
  {
    hide Served, LeadsTo, IsPage;
    WalkPartitions(walk, limit);
    ServedConsistent(walk[0], limit);
    if walk[0].cursor == None {
      var s := walk[0].stores;
      InStepMerge(s.ram, s.rows, None);
      assert Older(Union(s.ram, s.rows), None) == Union(s.ram, s.rows);
    }
  }

  // ------------------------------------------------------------------
  // Walks through quiet changes
  // ------------------------------------------------------------------

  /** What the list handler answers: a page, or a refusal when the cursor's exchange is gone. */
  ghost predicate Handled(v: Visit, limit: nat) {
    if v.cursor.Some? && !Retains(v.stores.ram, v.stores.rows, v.cursor.value) then v.reply.ResyncRequired?
    else Answered(v.reply, v.stores, v.cursor, limit)
  }

  /** The client follows its cursor after some quiet changes. */
  ghost predicate Continues(v: Visit, changes: seq<Change>, w: Visit) {
    && v.reply.Page? && v.reply.next.Some?
    && AllQuiet(v.stores, changes, v.reply.next.value)
    && w.stores == ApplyAll(v.stores, changes) && w.cursor == v.reply.next
  }

  ghost predicate IsQuietWalk(walk: seq<Visit>, gaps: seq<seq<Change>>, limit: nat) {
    && walk != [] && |gaps| == |walk| - 1
    && Handled(walk[0], limit)
    && (|walk| > 1 ==> Continues(walk[0], gaps[0], walk[1]) && IsQuietWalk(walk[1..], gaps[1..], limit))
  }

  /** The exchange a cursor names is still where it was when the page was served. */
  lemma CursorRetained(v: Visit, limit: nat)
    requires Served(v, limit) && v.reply.Page? && v.reply.next.Some?
    ensures v.reply.hasMore && Retains(v.stores.ram, v.stores.rows, v.reply.next.value)
  {
    ServedIsPage(v, limit);
    hide Answered, Steady;
    var last := v.reply.items[|v.reply.items| - 1];
    assert last in v.reply.items;
    var all := Merged(v.stores.ram, v.stores.rows, v.cursor);
    assert last.id in all && all[last.id] == last;
    KeyOwner(v.stores.ram, KeyOf(last));
    KeyOwner(v.stores.rows, KeyOf(last));
  }

  lemma QuietVisit(v: Visit, changes: seq<Change>, w: Visit, limit: nat)
    requires limit >= 1 && Served(v, limit) && Continues(v, changes, w) && Handled(w, limit)
    requires Steady(w.stores.ram)
    ensures Served(w, limit) && LeadsTo(v, w)
  {
    CursorRetained(v, limit);
    QuietRunKeepsRemaining(v.stores, changes, v.reply.next.value);
  }

  /** Whenever RAM is listed, its datagrams have the same order by both clocks. */
  ghost predicate SteadyThroughout(walk: seq<Visit>) {
    forall i :: 0 <= i < |walk| ==> Steady(walk[i].stores.ram)
  }

  lemma {:induction false} QuietWalkIsWalk(walk: seq<Visit>, gaps: seq<seq<Change>>, limit: nat)
    requires limit >= 1 && IsQuietWalk(walk, gaps, limit) && Served(walk[0], limit)
    requires SteadyThroughout(walk)
    ensures IsWalk(walk, limit)
    decreases |walk|
  {
    if |walk| > 1 {
      QuietVisit(walk[0], gaps[0], walk[1], limit);
      QuietWalkIsWalk(walk[1..], gaps[1..], limit);
    }
  }

  /**
    Following `next_cursor` from the first page to the last, with any quiet
    changes between the requests: no request is refused, every exchange of the
    history the walk began with is listed once, strictly newest first, and the
    end comes within one request per `limit` exchanges.
   */
  lemma QuietWalkListsAll(walk: seq<Visit>, gaps: seq<seq<Change>>, limit: nat)
    requires limit >= 1 && IsQuietWalk(walk, gaps, limit)
    requires Consistent(walk[0].stores) && walk[0].cursor == None && SteadyThroughout(walk)
    ensures forall i :: 0 <= i < |walk| ==> walk[i].reply.Page?
    ensures IsLast(walk[|walk| - 1]) ==>
              var first := walk[0].stores; Seen(walk) == Newest(MapKeys(Union(first.ram, first.rows)))
    ensures limit * (|walk| - 1) <= |Remaining(walk[0].stores, None)|
  {
    QuietWalkIsWalk(walk, gaps, limit);
    AllPages(walk, limit);
    WalkPartitions(walk, limit);
    if IsLast(walk[|walk| - 1]) {
      CompleteWalk(walk, limit);
    }
  }

  lemma {:induction false} AllPages(walk: seq<Visit>, limit: nat)
    requires IsWalk(walk, limit)
    ensures forall i :: 0 <= i < |walk| ==> walk[i].reply.Page?
    decreases |walk|
  {
    hide Served, LeadsTo, IsPage;
    ServedIsPage(walk[0], limit);
    if |walk| > 1 {
      AllPages(walk[1..], limit);
      forall i | 1 <= i < |walk| ensures walk[i].reply.Page? {
        assert walk[i] == walk[1..][i - 1];
      }
    }
  }

  // ------------------------------------------------------------------
  // A clock set back between two datagrams
  // ------------------------------------------------------------------

  /** Both datagrams are in RAM and stored. */
  function TwoDatagrams(): Stores {
    Stores(map[1 := Early(), 2 := Late()], map[1 := Stored(Early()), 2 := Stored(Late())])
  }

  /** RAM lists them by their monotonic times. */
  lemma LateIsListedFirst()
    ensures IsListing([Late(), Early()], TwoDatagrams().ram)
  {
    SortedPair(Early(), Late());
    assert Arranges([Early(), Late()], TwoDatagrams().ram);
    assert Sorted([Early(), Late()]) == [Late(), Early()];
  }

  /** With every id in RAM the rows change nothing. */
  lemma RamHides(ram: map<ID, Exchange>, rows: map<ID, Exchange>, limit: nat)
    requires rows.Keys <= ram.Keys
    ensures Union(ram, Window(ram, rows, limit)) == ram
  {
  }

  lemma AnsweredFromRam(xs: seq<Exchange>, s: Stores, limit: nat)
    requires IsListing(xs, s.ram) && s.rows.Keys <= s.ram.Keys
    ensures Answered(CutAt(xs, false, limit), s, None, limit)
  {
    assert Older(s.ram, None) == s.ram && Older(s.rows, None) == s.rows;
    RamHides(s.ram, s.rows, limit);
    SubsetSize(s.rows.Keys, s.ram.Keys);
    assert |s.rows| == |s.rows.Keys| && |s.ram| == |s.ram.Keys|;
    hide IsListing, Window, Union, Older, CutAt;
    assert Candidates(xs, s.ram, Some(s.rows), None, limit);
    assert !MoreRows(s.ram, Some(s.rows), None, limit);
  }

  lemma FirstPageShowsLate()
    ensures Answered(Page([Late()], Some(KeyOf(Late())), true), TwoDatagrams(), None, 1)
  {
    LateIsListedFirst();
    assert TwoDatagrams().rows.Keys <= TwoDatagrams().ram.Keys;
    assert Take([Late(), Early()], 1) == [Late()];
    assert CutAt([Late(), Early()], false, 1) == Page([Late()], Some(KeyOf(Late())), true);
    hide *;
    AnsweredFromRam([Late(), Early()], TwoDatagrams(), 1);
  }

  lemma AnsweredWithNothing(s: Stores, cursor: Cursor, limit: nat)
    requires Older(s.ram, cursor) == map[] && Older(s.rows, cursor) == map[]
    ensures Answered(Page([], None, false), s, cursor, limit)
  {
    assert Union(map[], Window(map[], map[], limit)) == map[];
    assert Arranges([], map[]) && Sorted([]) == [];
    assert Candidates([], s.ram, Some(s.rows), cursor, limit);
    assert CutAt([], false, limit) == Page([], None, false);
  }

  lemma NothingUnderLate()
    ensures Older(TwoDatagrams().ram, Some(KeyOf(Late()))) == map[]
    ensures Older(TwoDatagrams().rows, Some(KeyOf(Late()))) == map[]
  {
  }

  lemma SecondPageIsEmpty()
    ensures Answered(Page([], None, false), TwoDatagrams(), Some(KeyOf(Late())), 1)
  {
    NothingUnderLate();
    AnsweredWithNothing(TwoDatagrams(), Some(KeyOf(Late())), 1);
  }

  /**
    Why the clocks must agree: RAM is sorted by the monotonic times, the cursor
    is a wall-clock time. With pages of one exchange, and nothing changing, the
    first page shows the later datagram, the second is empty and the last, and
    the earlier datagram is never listed.
   */
  lemma ClockSetBackSkips() returns (walk: seq<Visit>)
    ensures IsQuietWalk(walk, [[]], 1) && |walk| == 2
    ensures walk[0].cursor == None && walk[0].stores == walk[1].stores == TwoDatagrams()
    ensures Consistent(TwoDatagrams()) && IsLast(walk[1])
    ensures Seen(walk) == [KeyOf(Late())] && KeyOf(Early()) in AllKeys(TwoDatagrams())
  {
    FirstPageShowsLate();
    SecondPageIsEmpty();
    hide Answered;
    var first := Visit(TwoDatagrams(), None, Page([Late()], Some(KeyOf(Late())), true));
    var second := Visit(TwoDatagrams(), Some(KeyOf(Late())), Page([], None, false));
    walk := [first, second];
    assert KeyOf(TwoDatagrams().ram[2]) == KeyOf(Late());
    assert Handled(second, 1) && Continues(first, [], second);
    var gaps: seq<seq<Change>> := [[]];
    assert walk[1..] == [second] && gaps[1..] == [];
    assert IsQuietWalk([second], [], 1);
    assert Seen([second]) == [] by { assert [second][1..] == []; }
    assert KeyOf(Union(TwoDatagrams().ram, TwoDatagrams().rows)[1]) == KeyOf(Early());
  }
}
