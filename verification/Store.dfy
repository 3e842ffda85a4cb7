/** Bounded RAM history (internal/store/memory.go). */
module Store {
  import opened Common
  import opened Ordering
  import opened Capture
  import opened Listing

  ghost function Matching(items: map<ID, Exchange>, keep: Exchange -> bool): map<ID, Exchange> {
    map id | id in items && keep(items[id]) :: items[id]
  }

  predicate Terminal(x: Exchange) {
    IsTerminal(x.state)
  }

  ghost function Terminals(items: map<ID, Exchange>): map<ID, Exchange> {
    Matching(items, Terminal)
  }

  /** The terminal exchanges newest first. */
  ghost function Ranking(items: map<ID, Exchange>): seq<Key> {
    Newest(MapKeys(Terminals(items)))
  }

  ghost function Excess(items: map<ID, Exchange>, capacity: nat): seq<Exchange>
    requires Filed(items)
  {
    RankingKnown(items);
    Records(Drop(Ranking(items), capacity), items)
  }

  /** What evictExcess may evict: everything beyond capacity in a sort of the terminal exchanges. */
  ghost predicate Evicts(items: map<ID, Exchange>, capacity: nat, evicted: seq<Exchange>) {
    exists listing :: IsListing(listing, Terminals(items)) && evicted == Drop(listing, capacity)
  }

  ghost function Left(items: map<ID, Exchange>, evicted: seq<Exchange>): map<ID, Exchange> {
    map id | id in items && items[id] !in evicted :: items[id]
  }

  /** What is left when exactly the excess is evicted. */
  ghost function Retained(items: map<ID, Exchange>, capacity: nat): map<ID, Exchange> {
    map id | id in items && (Terminal(items[id]) ==> KeyOf(items[id]) in Take(Ranking(items), capacity)) :: items[id]
  }

  lemma RankingKnown(items: map<ID, Exchange>)
    requires Filed(items)
    ensures Known(Ranking(items), items)
    ensures forall k :: k in Ranking(items) <==> k.id in items && KeyOf(items[k.id]) == k && Terminal(items[k.id])
  {
    assert MapKeys(Terminals(items)) <= MapKeys(items);
    NewestKnown(items, MapKeys(Terminals(items)));
    forall k ensures k in Ranking(items) <==> k.id in items && KeyOf(items[k.id]) == k && Terminal(items[k.id]) {
      KeyOwner(Terminals(items), k);
      assert k in Ranking(items) <==> k in Elements(Ranking(items));
    }
  }

  lemma ExcessIsOutranked(items: map<ID, Exchange>, capacity: nat, id: ID)
    requires Filed(items) && id in items
    ensures items[id] in Excess(items, capacity)
        <==> Terminal(items[id]) && KeyOf(items[id]) !in Take(Ranking(items), capacity)
  {
    RankingKnown(items);
    IsRecord(Drop(Ranking(items), capacity), items, items[id]);
    TakeOrDrop(Ranking(items), capacity, KeyOf(items[id]));
  }

  /** An exchange is evicted exactly when it is terminal and ranks beyond capacity. */
  lemma EvictedWhenOutranked(items: map<ID, Exchange>, capacity: nat, evicted: seq<Exchange>, id: ID)
    requires Filed(items) && id in items
    requires Evicts(items, capacity, evicted) && Steady(Terminals(items))
    ensures items[id] in evicted <==> Terminal(items[id]) && KeyOf(items[id]) !in Take(Ranking(items), capacity)
  {
    EvictsExcess(items, capacity, evicted);
    ExcessIsOutranked(items, capacity, id);
  }

  /** The terminal exchanges newer than `x`. */
  ghost function Outranking(items: map<ID, Exchange>, x: Exchange): set<ID> {
    set id | id in items && id != x.id && Terminal(items[id]) && Newer(KeyOf(items[id]), KeyOf(x))
  }

  /** A terminal exchange survives an eviction exactly when fewer than capacity terminal ones are newer. */
  lemma KeptExactly(items: map<ID, Exchange>, capacity: nat, evicted: seq<Exchange>, id: ID)
    requires Filed(items) && id in items && Terminal(items[id])
    requires Evicts(items, capacity, evicted) && Steady(Terminals(items))
    ensures id in Left(items, evicted) <==> |Outranking(items, items[id])| < capacity
  {
    EvictsExcess(items, capacity, evicted);
    RetainedExactly(items, capacity, id);
  }

  lemma RetainedExactly(items: map<ID, Exchange>, capacity: nat, id: ID)
    requires Filed(items) && id in items && Terminal(items[id])
    ensures id in Retained(items, capacity) <==> |Outranking(items, items[id])| < capacity
  {
    var keys := MapKeys(Terminals(items));
    var x := items[id];
    KeyOwner(Terminals(items), KeyOf(x));
    RankCounts(keys, KeyOf(x), capacity);
    var ids := Outranking(items, x);
    var part := map other | other in ids :: items[other];
    KeyCount(part);
    assert part.Keys == ids;
    assert MapKeys(part) == set k | k in keys && Newer(k, KeyOf(x)) by {
      forall k ensures k in MapKeys(part) <==> k in keys && Newer(k, KeyOf(x)) {
        KeyOwner(part, k);
        KeyOwner(Terminals(items), k);
      }
    }
  }

  /** Exactly the excess leaves RAM: what stays and what goes partition the items. */
  lemma RetainedIsRest(items: map<ID, Exchange>, capacity: nat)
    requires Filed(items)
    ensures Retained(items, capacity) == Left(items, Excess(items, capacity))
  {
    forall id | id in items ensures id in Retained(items, capacity) <==> items[id] !in Excess(items, capacity) {
      ExcessIsOutranked(items, capacity, id);
    }
  }

  lemma {:induction false} KeyCount(items: map<ID, Exchange>)
    requires Filed(items)
    ensures |MapKeys(items)| == |items|
    decreases |items|
  {
    if items == map[] {
      assert MapKeys(items) == {};
    } else {
      var id :| id in items;
      var rest := items - {id};
      assert |rest| == |items| - 1 by { assert rest.Keys == items.Keys - {id}; }
      KeyCount(rest);
      forall k ensures k in MapKeys(items) <==> k in MapKeys(rest) || k == KeyOf(items[id]) {
        KeyOwner(items, k);
        KeyOwner(rest, k);
      }
      assert MapKeys(items) == MapKeys(rest) + {KeyOf(items[id])};
      KeyOwner(rest, KeyOf(items[id]));
    }
  }

  /** Cutting the sorted terminal exchanges at capacity yields the excess. */
  lemma TailIsExcess(sorted: seq<Exchange>, items: map<ID, Exchange>, capacity: nat)
    requires Filed(items)
    requires KeysOf(sorted) == Ranking(items)
    requires forall x :: x in sorted ==> x.id in items && items[x.id] == x
    ensures Drop(sorted, capacity) == Excess(items, capacity)
  {
    RankingKnown(items);
    var tail := Drop(sorted, capacity);
    assert KeysOf(tail) == Drop(Ranking(items), capacity);
    AreRecords(tail, items);
  }

  /** Steady exchanges leave by rank, whatever order the map is visited in. */
  lemma EvictsExcess(items: map<ID, Exchange>, capacity: nat, evicted: seq<Exchange>)
    requires Filed(items) && Evicts(items, capacity, evicted) && Steady(Terminals(items))
    ensures evicted == Excess(items, capacity) && Left(items, evicted) == Retained(items, capacity)
  {
    var listing :| IsListing(listing, Terminals(items)) && evicted == Drop(listing, capacity);
    SteadyListing(listing, Terminals(items));
    TailIsExcess(listing, items, capacity);
    RetainedIsRest(items, capacity);
  }

  lemma {:induction false} ArrangedCount(xs: seq<Exchange>, items: map<ID, Exchange>)
    requires Filed(items) && Arranges(xs, items)
    ensures |xs| == |items|
    decreases |xs|
  {
    if xs == [] {
      assert forall id :: id in items ==> items[id] in xs;
      assert items == map[];
    } else {
      var n := |xs| - 1;
      assert xs[n] in xs;
      var fewer := items - {xs[n].id};
      assert fewer.Keys == items.Keys - {xs[n].id};
      FrontArranges(xs, items);
      ArrangedCount(xs[..n], fewer);
    }
  }

  lemma FrontArranges(xs: seq<Exchange>, items: map<ID, Exchange>)
    requires Arranges(xs, items) && xs != []
    ensures Arranges(xs[..|xs| - 1], items - {xs[|xs| - 1].id})
  {
    var n := |xs| - 1;
    assert forall x :: x in xs <==> x in xs[..n] || x == xs[n];
    assert forall x :: x in xs[..n] ==> x.id != xs[n].id;
  }

  /** Cutting a listing splits its exchanges in two. */
  lemma CutSplits(listing: seq<Exchange>, items: map<ID, Exchange>, n: nat)
    requires Arranges(listing, items)
    ensures DistinctIDs(Take(listing, n)) && DistinctIDs(Drop(listing, n))
    ensures forall x :: x in listing <==> x in Take(listing, n) || x in Drop(listing, n)
    ensures forall x :: !(x in Take(listing, n) && x in Drop(listing, n))
  {
    if |listing| > n {
      assert listing == listing[..n] + listing[n..];
    }
  }

  /**
    Whatever the clocks did, RAM keeps as many terminal exchanges as it had, up
    to capacity; what it evicts is terminal, was there, and is reported once;
    what is active stays.
   */
  lemma EvictionIsExact(items: map<ID, Exchange>, capacity: nat, evicted: seq<Exchange>)
    requires Filed(items) && Evicts(items, capacity, evicted)
    ensures |Terminals(Left(items, evicted))|
         == if |Terminals(items)| <= capacity then |Terminals(items)| else capacity
    ensures |Terminals(Left(items, evicted))| + |evicted| == |Terminals(items)| && DistinctIDs(evicted)
    ensures forall x :: x in evicted ==> x.id in items && items[x.id] == x && Terminal(x)
    ensures forall id :: id in items && !Terminal(items[id]) ==> id in Left(items, evicted)
  {
    var listing :| IsListing(listing, Terminals(items)) && evicted == Drop(listing, capacity);
    ListingArranges(listing, Terminals(items));
    ArrangedCount(listing, Terminals(items));
    CutSplits(listing, Terminals(items), capacity);
    ArrangedCount(Take(listing, capacity), Terminals(Left(items, evicted)));
  }

  /** Every terminal exchange that stays is newer than every one that goes. */
  ghost predicate KeepsNewest(items: map<ID, Exchange>, evicted: seq<Exchange>) {
    forall id, x :: id in Left(items, evicted) && Terminal(items[id]) && x in evicted ==>
      Newer(KeyOf(items[id]), KeyOf(x))
  }

  /**
    At every capacity and for every order of the map the newest stay and the
    oldest go, exactly when no two terminal datagrams are ordered differently by
    their wall-clock and their monotonic times.
   */
  lemma EvictsOldestExactly(items: map<ID, Exchange>)
    requires Filed(items)
    ensures (forall capacity: nat, evicted :: capacity >= 1 && Evicts(items, capacity, evicted) ==>
               KeepsNewest(items, evicted))
       <==> Steady(Terminals(items))
  {
    if Steady(Terminals(items)) {
      forall capacity: nat, evicted | capacity >= 1 && Evicts(items, capacity, evicted)
        ensures KeepsNewest(items, evicted)
      {
        EvictsExcess(items, capacity, evicted);
        ExcessIsOldest(items, capacity);
      }
    } else {
      var listing, p, q := UnsteadyIsWrong(Terminals(items));
      WrongEviction(items, listing, p, q);
    }
  }

  lemma ExcessIsOldest(items: map<ID, Exchange>, capacity: nat)
    requires Filed(items)
    ensures KeepsNewest(items, Excess(items, capacity))
  {
    RankingKnown(items);
    var evicted := Excess(items, capacity);
    forall id, x | id in Left(items, evicted) && Terminal(items[id]) && x in evicted
      ensures Newer(KeyOf(items[id]), KeyOf(x))
    {
      IsRecord(Drop(Ranking(items), capacity), items, x);
      ExcessIsOutranked(items, capacity, id);
      TakeOrDrop(Ranking(items), capacity, KeyOf(x));
    }
  }

  /** A listing that has an older exchange in front of a newer one keeps the older at some capacity. */
  lemma WrongEviction(items: map<ID, Exchange>, listing: seq<Exchange>, p: nat, q: nat)
    requires Filed(items) && IsListing(listing, Terminals(items))
    requires p < q < |listing| && Newer(KeyOf(listing[q]), KeyOf(listing[p]))
    ensures Evicts(items, p + 1, Drop(listing, p + 1)) && !KeepsNewest(items, Drop(listing, p + 1))
  {
    ListingArranges(listing, Terminals(items));
    CutSplits(listing, Terminals(items), p + 1);
    FrontAndBehind(listing, p, q);
    hide IsListing, Take, Drop, DistinctIDs, Newer;
    var kept := listing[p];
    assert kept in listing && kept.id in Left(items, Drop(listing, p + 1)) && Terminal(items[kept.id]);
  }

  lemma FrontAndBehind(listing: seq<Exchange>, p: nat, q: nat)
    requires p < q < |listing|
    ensures listing[p] in Take(listing, p + 1) && listing[q] in Drop(listing, p + 1)
  {
    assert Take(listing, p + 1)[p] == listing[p];
    assert Drop(listing, p + 1)[q - p - 1] == listing[q];
  }

  /** With a request's time between those of two unsteady datagrams, each of the three can be the one to go. */
  lemma EvictionDependsOnOrder()
    ensures Evicts(ThreeExchanges(), 2, [Early()])
    ensures Evicts(ThreeExchanges(), 2, [Late()])
    ensures Evicts(ThreeExchanges(), 2, [Between()])
  {
    var items := ThreeExchanges();
    ListingDependsOnOrder();
    hide IsListing;
    assert Terminals(items) == items;
    assert Drop([Between(), Late(), Early()], 2) == [Early()];
    assert Drop([Early(), Between(), Late()], 2) == [Late()];
    assert Drop([Late(), Early(), Between()], 2) == [Between()];
  }

  class Memory {
    var capacity: nat
    var items: map<ID, Exchange>

    ghost predicate Valid()
      reads this
    {
      capacity >= 1 && Filed(items)
    }

    constructor (limit: int)
      ensures Valid()
      ensures capacity == (if limit < 1 then 1 else limit) && items == map[]
    {
      capacity := if limit < 1 then 1 else limit;
      items := map[];
    }

    /** A loop over the map, which Go visits in no particular order. */
    method Collect(keep: Exchange -> bool) returns (found: seq<Exchange>)
      requires Valid()
      ensures Arranges(found, Matching(items, keep))
    {
      found := [];
      var todo := items.Keys;
      while todo != {}
        invariant todo <= items.Keys
        invariant DistinctIDs(found)
        invariant forall x :: x in found <==> x.id in items && items[x.id] == x && keep(x) && x.id !in todo
        decreases |todo|
      {
        var id :| id in todo;
        if keep(items[id]) {
          assert forall i :: 0 <= i < |found| ==> found[i] in found && found[i].id != id;
          found := found + [items[id]];
        }
        todo := todo - {id};
      }
    }

    method Delete(gone: seq<Exchange>)
      requires Valid()
      requires forall x :: x in gone ==> x.id in items && items[x.id] == x
      modifies this`items
      ensures Valid()
      ensures items == Left(old(items), gone)
    {
      for i := 0 to |gone|
        invariant Valid()
        invariant items == Left(old(items), gone[..i])
      {
        assert gone[..i + 1] == gone[..i] + [gone[i]];
        assert gone[i] in gone;
        items := items - {gone[i].id};
      }
      assert gone[..|gone|] == gone;
    }

    method EvictExcess() returns (evicted: seq<Exchange>)
      requires Valid()
      modifies this`items
      ensures Valid()
      ensures Evicts(old(items), capacity, evicted) && items == Left(old(items), evicted)
      ensures Steady(Terminals(old(items))) ==>
                evicted == Excess(old(items), capacity) && items == Retained(old(items), capacity)
    {
      ghost var all := items;
      var completed := Collect(Terminal);
      SortedMembers(completed);
      assert IsListing(Sorted(completed), Terminals(all));
      ListingArranges(Sorted(completed), Terminals(all));
      if |completed| <= capacity {
        evicted := [];
        assert evicted == Drop(Sorted(completed), capacity);
      } else {
        var sorted := SortNewestFirst(completed);
        evicted := sorted[capacity..];
        assert evicted == Drop(sorted, capacity);
        Delete(evicted);
      }
      assert items == Left(all, evicted);
      if Steady(Terminals(all)) {
        EvictsExcess(all, capacity, evicted);
      }
    }

    /** Stores the exchange, then evicts. The same call replaces an earlier revision. */
    method Save(x: Exchange) returns (evicted: seq<Exchange>)
      requires Valid()
      modifies this`items
      ensures Valid()
      ensures var all := old(items)[x.id := x];
              && Evicts(all, capacity, evicted) && items == Left(all, evicted)
              && (Steady(Terminals(all)) ==> evicted == Excess(all, capacity) && items == Retained(all, capacity))
    {
      items := items[x.id := x];
      evicted := EvictExcess();
    }

    method Resize(limit: int) returns (evicted: seq<Exchange>)
      requires Valid()
      modifies this
      ensures Valid()
      ensures capacity == if limit < 1 then 1 else limit
      ensures Evicts(old(items), capacity, evicted) && items == Left(old(items), evicted)
      ensures Steady(Terminals(old(items))) ==>
                evicted == Excess(old(items), capacity) && items == Retained(old(items), capacity)
    {
      capacity := if limit < 1 then 1 else limit;
      evicted := EvictExcess();
    }

    method List() returns (listed: seq<Exchange>)
      requires Valid()
      ensures IsListing(listed, items) && Arranges(listed, items)
      ensures Steady(items) ==> KeysOf(listed) == Newest(MapKeys(items))
    {
      var found := Collect((x: Exchange) => true);
      assert Matching(items, (x: Exchange) => true) == items;
      listed := SortNewestFirst(found);
      ListingArranges(listed, items);
      if Steady(items) {
        SteadyListing(listed, items);
      }
    }

    method Clear() returns (removed: seq<Exchange>)
      requires Valid()
      modifies this`items
      ensures Valid()
      ensures IsListing(removed, Terminals(old(items))) && Arranges(removed, Terminals(old(items)))
      ensures Steady(Terminals(old(items))) ==> KeysOf(removed) == Ranking(old(items))
      ensures items == map id | id in old(items) && !Terminal(old(items)[id]) :: old(items)[id]
    {
      var found := Collect(Terminal);
      removed := SortNewestFirst(found);
      ListingArranges(removed, Terminals(items));
      if Steady(Terminals(items)) {
        SteadyListing(removed, Terminals(items));
      }
      Delete(found);
    }

    method Remove(id: ID) returns (removed: Option<Exchange>)
      requires Valid()
      modifies this`items
      ensures Valid()
      ensures removed == if id in old(items) && Terminal(old(items)[id]) then Some(old(items)[id]) else None
      ensures items == if removed.Some? then old(items) - {id} else old(items)
    {
      if id !in items || !Terminal(items[id]) {
        return None;
      }
      removed := Some(items[id]);
      items := items - {id};
    }

    method RemoveCompletedBefore(cutoff: int) returns (removed: seq<Exchange>)
      requires Valid()
      modifies this`items
      ensures Valid()
      ensures IsListing(removed, Expired(old(items), cutoff)) && Arranges(removed, Expired(old(items), cutoff))
      ensures Steady(Expired(old(items), cutoff)) ==> NewestFirst(KeysOf(removed))
      ensures items == map id | id in old(items) && !ExpiredBefore(old(items)[id], cutoff) :: old(items)[id]
      ensures forall x :: x in removed
                <==> && x.id in old(items) && old(items)[x.id] == x
                     && (x.state.Completed? || x.state.Failed? || x.state.Cancelled? || x.state.Discarded?)
                     && x.completed.Some? && x.completed.value < cutoff
    {
      ghost var expired := Expired(items, cutoff);
      var found := Collect((x: Exchange) => ExpiredBefore(x, cutoff));
      assert Matching(items, (x: Exchange) => ExpiredBefore(x, cutoff)) == expired;
      removed := SortNewestFirst(found);
      ListingArranges(removed, expired);
      if Steady(expired) {
        SteadyListing(removed, expired);
      }
      hide IsListing, Steady, DistinctIDs;
      Delete(found);
    }
  }

  /** The cutoff is in wall-clock time, so it is compared with the wall clock of every exchange. */
  predicate ExpiredBefore(x: Exchange, cutoff: int) {
    IsTerminal(x.state) && x.completed.Some? && x.completed.value < cutoff
  }

  ghost function Expired(items: map<ID, Exchange>, cutoff: int): map<ID, Exchange> {
    map id | id in items && ExpiredBefore(items[id], cutoff) :: items[id]
  }
}
