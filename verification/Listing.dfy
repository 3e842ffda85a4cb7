/**
  The newest-first sort shared by the RAM store and the history API
  (internal/store/memory.go, internal/httpapi/exchanges.go).
 */
module Listing {
  import opened Common
  import opened Ordering
  import opened Capture

  /** The exchanges of a list are exactly those a map files. */
  ghost predicate Lists(xs: seq<Exchange>, items: map<ID, Exchange>) {
    forall x :: x in xs <==> x.id in items && items[x.id] == x
  }

  ghost predicate DistinctIDs(xs: seq<Exchange>) {
    forall i, j :: 0 <= i < j < |xs| ==> xs[i].id != xs[j].id
  }

  /** The exchanges of a map, each once, in any order: what a loop over a Go map visits. */
  ghost predicate Arranges(xs: seq<Exchange>, items: map<ID, Exchange>) {
    Lists(xs, items) && DistinctIDs(xs)
  }

  /** What the sort can make of them. */
  ghost predicate IsListing(xs: seq<Exchange>, items: map<ID, Exchange>) {
    exists order :: Arranges(order, items) && xs == Sorted(order)
  }

  // ------------------------------------------------------------------
  // The sort
  // ------------------------------------------------------------------

  /** `x` put before the entries at the end that it sorts before. */
  function Placed(sorted: seq<Exchange>, x: Exchange): seq<Exchange>
    decreases |sorted|
  {
    if sorted == [] || !SortsBefore(x, sorted[|sorted| - 1]) then sorted + [x]
    else Placed(sorted[..|sorted| - 1], x) + [sorted[|sorted| - 1]]
  }

  /** The stable insertion sort, which the library's sort is for up to twenty exchanges. */
  function Sorted(xs: seq<Exchange>): seq<Exchange>
    decreases |xs|
  {
    if xs == [] then [] else Placed(Sorted(xs[..|xs| - 1]), xs[|xs| - 1])
  }

  method Place(sorted: seq<Exchange>, x: Exchange) returns (longer: seq<Exchange>)
    ensures longer == Placed(sorted, x)
  {
    var p := |sorted|;
    assert sorted[..p] == sorted;
    while p > 0 && SortsBefore(x, sorted[p - 1])
      invariant p <= |sorted|
      invariant Placed(sorted, x) == Placed(sorted[..p], x) + sorted[p..]
    {
      assert sorted[..p][..p - 1] == sorted[..p - 1];
      p := p - 1;
    }
    longer := sorted[..p] + [x] + sorted[p..];
  }

  method SortNewestFirst(xs: seq<Exchange>) returns (sorted: seq<Exchange>)
    ensures sorted == Sorted(xs)
  {
    sorted := [];
    for i := 0 to |xs|
      invariant sorted == Sorted(xs[..i])
    {
      assert xs[..i + 1][..i] == xs[..i];
      sorted := Place(sorted, xs[i]);
    }
    assert xs[..|xs|] == xs;
  }

  lemma {:induction false} PlacedMembers(sorted: seq<Exchange>, x: Exchange)
    ensures |Placed(sorted, x)| == |sorted| + 1
    ensures forall y :: y in Placed(sorted, x) <==> y in sorted || y == x
    decreases |sorted|
  {
    if sorted != [] && SortsBefore(x, sorted[|sorted| - 1]) {
      PlacedMembers(sorted[..|sorted| - 1], x);
      assert sorted == sorted[..|sorted| - 1] + [sorted[|sorted| - 1]];
    }
  }

  lemma {:induction false} PlacedDistinct(sorted: seq<Exchange>, x: Exchange)
    requires DistinctIDs(sorted) && forall y :: y in sorted ==> y.id != x.id
    ensures DistinctIDs(Placed(sorted, x))
    decreases |sorted|
  {
    if sorted != [] {
      var n := |sorted| - 1;
      assert forall y :: y in sorted[..n] ==> y.id != sorted[n].id;
      PlacedDistinct(sorted[..n], x);
      PlacedMembers(sorted[..n], x);
      assert sorted[n] in sorted;
      assert forall i :: 0 <= i < |Placed(sorted[..n], x)| ==> Placed(sorted[..n], x)[i] in Placed(sorted[..n], x);
      assert forall i :: 0 <= i <= n ==> sorted[i] in sorted;
    }
  }

  lemma {:induction false} SortedMembers(xs: seq<Exchange>)
    ensures |Sorted(xs)| == |xs|
    ensures forall y :: y in Sorted(xs) <==> y in xs
    ensures DistinctIDs(xs) ==> DistinctIDs(Sorted(xs))
    decreases |xs|
  {
    if xs != [] {
      var n := |xs| - 1;
      SortedMembers(xs[..n]);
      PlacedMembers(Sorted(xs[..n]), xs[n]);
      assert xs == xs[..n] + [xs[n]];
      if DistinctIDs(xs) {
        PlacedDistinct(Sorted(xs[..n]), xs[n]);
      }
    }
  }

  /** Sorting neither loses nor repeats an exchange. */
  lemma ListingArranges(xs: seq<Exchange>, items: map<ID, Exchange>)
    requires IsListing(xs, items)
    ensures Arranges(xs, items)
  {
    var order :| Arranges(order, items) && xs == Sorted(order);
    SortedMembers(order);
  }

  // ------------------------------------------------------------------
  // When the sort is newest first
  // ------------------------------------------------------------------

  lemma {:induction false} PlacedInOrder(sorted: seq<Exchange>, x: Exchange)
    requires NewestFirst(KeysOf(sorted))
    requires forall y :: y in sorted ==> y.id != x.id && SteadyPair(x, y)
    ensures NewestFirst(KeysOf(Placed(sorted, x)))
    decreases |sorted|
  {
    if sorted != [] {
      var n := |sorted| - 1;
      var keys := KeysOf(sorted);
      assert sorted[n] in sorted;
      if !SortsBefore(x, sorted[n]) {
        assert forall i :: 0 <= i <= n ==> i == n || Newer(keys[i], keys[n]);
        assert Newer(keys[n], KeyOf(x));
      } else {
        assert KeysOf(sorted[..n]) == keys[..n];
        PlacedInOrder(sorted[..n], x);
        PlacedAbove(sorted[..n], x, sorted[n]);
      }
    }
  }

  lemma PlacedAbove(front: seq<Exchange>, x: Exchange, last: Exchange)
    requires forall i :: 0 <= i < |front| ==> Newer(KeyOf(front[i]), KeyOf(last))
    requires Newer(KeyOf(x), KeyOf(last))
    ensures forall y :: y in Placed(front, x) ==> Newer(KeyOf(y), KeyOf(last))
  {
    PlacedMembers(front, x);
  }

  lemma {:induction false} SortedInOrder(xs: seq<Exchange>)
    requires DistinctIDs(xs)
    requires forall x, y :: x in xs && y in xs ==> SteadyPair(x, y)
    ensures NewestFirst(KeysOf(Sorted(xs)))
    decreases |xs|
  {
    if xs != [] {
      var n := |xs| - 1;
      SortedInOrder(xs[..n]);
      SortedMembers(xs[..n]);
      PlacedInOrder(Sorted(xs[..n]), xs[n]);
    }
  }

  lemma ListsKeys(xs: seq<Exchange>, items: map<ID, Exchange>)
    requires Filed(items) && Lists(xs, items)
    ensures Elements(KeysOf(xs)) == MapKeys(items)
  {
    forall k ensures k in KeysOf(xs) <==> k in MapKeys(items) {
      KeyOwner(items, k);
      if k in KeysOf(xs) {
        var i :| 0 <= i < |xs| && KeysOf(xs)[i] == k;
        assert xs[i] in xs;
      }
      if k in MapKeys(items) {
        assert items[k.id] in xs;
        var i :| 0 <= i < |xs| && xs[i] == items[k.id];
        assert KeysOf(xs)[i] == k;
      }
    }
  }

  /** Steady exchanges have one listing, whatever order they come in. */
  lemma SteadyListing(xs: seq<Exchange>, items: map<ID, Exchange>)
    requires Filed(items) && Steady(items) && IsListing(xs, items)
    ensures KeysOf(xs) == Newest(MapKeys(items)) && Lists(xs, items)
  {
    var order :| Arranges(order, items) && xs == Sorted(order);
    SortedInOrder(order);
    ListingArranges(xs, items);
    ListsKeys(xs, items);
    SortedIsNewest(KeysOf(xs));
  }

  /** `y` stands before `x`. */
  ghost predicate Precedes(s: seq<Exchange>, y: Exchange, x: Exchange) {
    exists p, q :: 0 <= p < q < |s| && s[p] == y && s[q] == x
  }

  lemma {:induction false} PlacedKeepsOrder(s: seq<Exchange>, z: Exchange, y: Exchange, x: Exchange)
    requires Precedes(s, y, x)
    ensures Precedes(Placed(s, z), y, x)
    decreases |s|
  {
    var p, q :| 0 <= p < q < |s| && s[p] == y && s[q] == x;
    var n := |s| - 1;
    if !SortsBefore(z, s[n]) {
      assert (s + [z])[p] == y && (s + [z])[q] == x;
    } else if q < n {
      assert s[..n][p] == y && s[..n][q] == x;
      PlacedKeepsOrder(s[..n], z, y, x);
      PrecedesLonger(Placed(s[..n], z), s[n], y, x);
    } else {
      assert s[..n][p] == y && y in s[..n];
      PlacedMembers(s[..n], z);
      PrecedesLast(Placed(s[..n], z), y, x);
    }
  }

  lemma PrecedesLonger(s: seq<Exchange>, last: Exchange, y: Exchange, x: Exchange)
    requires Precedes(s, y, x)
    ensures Precedes(s + [last], y, x)
  {
    var p, q :| 0 <= p < q < |s| && s[p] == y && s[q] == x;
    assert (s + [last])[p] == y && (s + [last])[q] == x;
  }

  lemma PrecedesLast(s: seq<Exchange>, y: Exchange, x: Exchange)
    requires y in s
    ensures Precedes(s + [x], y, x)
  {
    var p :| 0 <= p < |s| && s[p] == y;
    assert (s + [x])[p] == y && (s + [x])[|s|] == x;
  }

  lemma {:induction false} FirstTwoKeepOrder(x: Exchange, y: Exchange, rest: seq<Exchange>)
    requires SortsBefore(y, x)
    ensures Precedes(Sorted([x, y] + rest), y, x)
    decreases |rest|
  {
    var xs := [x, y] + rest;
    if rest == [] {
      SortedPair(x, y);
      assert xs == [x, y];
      assert [y, x][0] == y && [y, x][1] == x;
    } else {
      FirstTwoKeepOrder(x, y, rest[..|rest| - 1]);
      assert xs[..|xs| - 1] == [x, y] + rest[..|rest| - 1];
      PlacedKeepsOrder(Sorted(xs[..|xs| - 1]), xs[|xs| - 1], y, x);
    }
  }

  lemma SortedPair(x: Exchange, y: Exchange)
    ensures Sorted([x, y]) == if SortsBefore(y, x) then [y, x] else [x, y]
  {
    assert [x, y][..1] == [x] && [x][..0] == [];
    assert Sorted([x]) == Placed([], x) == [x];
    assert SortsBefore(y, x) ==> Placed([x], y) == Placed([], y) + [x];
  }

  lemma ArrangementExists(items: map<ID, Exchange>) returns (xs: seq<Exchange>)
    requires Filed(items)
    ensures Arranges(xs, items)
    decreases |items|
  {
    if items == map[] {
      xs := [];
    } else {
      var id :| id in items;
      var fewer := items - {id};
      assert |fewer| < |items| by { assert fewer.Keys == items.Keys - {id}; }
      var rest := ArrangementExists(fewer);
      OneMoreArranged(rest, items, id);
      xs := [items[id]] + rest;
    }
  }

  lemma OneMoreArranged(rest: seq<Exchange>, items: map<ID, Exchange>, id: ID)
    requires Filed(items) && id in items && Arranges(rest, items - {id})
    ensures Arranges([items[id]] + rest, items)
  {
    var xs := [items[id]] + rest;
    assert forall i :: 0 <= i < |rest| ==> rest[i] in rest;
    assert forall x :: x in xs <==> x == items[id] || x in rest;
  }

  lemma WrongListing(items: map<ID, Exchange>, x: Exchange, y: Exchange) returns (xs: seq<Exchange>)
    requires Filed(items) && x.id in items && y.id in items && items[x.id] == x && items[y.id] == y
    requires x.id != y.id && SortsBefore(y, x)
    ensures IsListing(xs, items) && Precedes(xs, y, x)
  {
    var rest := ArrangementExists(items - {x.id, y.id});
    assert forall i :: 0 <= i < |rest| ==> rest[i] in rest;
    var order := [x, y] + rest;
    assert Lists(order, items) by {
      forall z ensures z in order <==> z.id in items && items[z.id] == z {
        assert z in order <==> z == x || z == y || z in rest;
      }
    }
    assert Arranges(order, items);
    FirstTwoKeepOrder(x, y, rest);
    xs := Sorted(order);
  }

  /** An unsteady pair stands the wrong way round in some listing. */
  lemma UnsteadyIsWrong(items: map<ID, Exchange>) returns (xs: seq<Exchange>, p: nat, q: nat)
    requires Filed(items) && !Steady(items)
    ensures IsListing(xs, items)
    ensures p < q < |xs| && Newer(KeyOf(xs[q]), KeyOf(xs[p]))
  {
    var i, j :| i in items && j in items && !SteadyPair(items[i], items[j]);
    var x, y := items[i], items[j];
    ComparesKeysExactly(x, y);
    if Newer(KeyOf(y), KeyOf(x)) {
      x, y := y, x;
    }
    xs := WrongListing(items, x, y);
    p, q :| 0 <= p < q < |xs| && xs[p] == y && xs[q] == x;
  }

  /**
    The listing is newest first by wall clock and id, whatever order the
    exchanges come in, exactly when no two datagrams among them are ordered
    differently by their wall-clock and their monotonic times.
   */
  lemma NewestFirstExactly(items: map<ID, Exchange>)
    requires Filed(items)
    ensures (forall xs :: IsListing(xs, items) ==> NewestFirst(KeysOf(xs))) <==> Steady(items)
  {
    if Steady(items) {
      forall xs | IsListing(xs, items) ensures NewestFirst(KeysOf(xs)) {
        SteadyListing(xs, items);
      }
    } else {
      var xs, p, q := UnsteadyIsWrong(items);
      assert !Newer(KeysOf(xs)[p], KeysOf(xs)[q]);
    }
  }

  /** A datagram at wall time 100. */
  function Early(): Exchange {
    Exchange(1, UDP, Completed, 1, 100, Some(100), Some(1), [], Some([]), None, Persisted)
  }

  /** A later datagram, after the wall clock was set back to 50. */
  function Late(): Exchange {
    Exchange(2, UDP, Completed, 1, 50, Some(50), Some(2), [], Some([]), None, Persisted)
  }

  /** An HTTP exchange completed at wall time 70. */
  function Between(): Exchange {
    Exchange(3, HTTP, Completed, 3, 60, Some(70), None, [], None, None, Persisted)
  }

  function ThreeExchanges(): map<ID, Exchange> {
    map[1 := Early(), 2 := Late(), 3 := Between()]
  }

  /** A list in which no entry sorts before the one in front of it stays as it is. */
  lemma ListedThree(x: Exchange, y: Exchange, z: Exchange)
    requires !SortsBefore(y, x) && !SortsBefore(z, y)
    requires x.id != y.id && y.id != z.id && x.id != z.id
    ensures IsListing([x, y, z], map[x.id := x, y.id := y, z.id := z])
  {
    SortedPair(x, y);
    assert [x, y, z][..2] == [x, y];
    assert Arranges([x, y, z], map[x.id := x, y.id := y, z.id := z]);
  }

  /** The comparison is cyclic on these three, and their listing depends on the order the map is visited in. */
  lemma ListingDependsOnOrder()
    ensures SortsBefore(Late(), Early()) && SortsBefore(Early(), Between()) && SortsBefore(Between(), Late())
    ensures IsListing([Late(), Early(), Between()], ThreeExchanges())
    ensures IsListing([Between(), Late(), Early()], ThreeExchanges())
    ensures IsListing([Early(), Between(), Late()], ThreeExchanges())
  {
    var a, b, x := Early(), Late(), Between();
    ListedThree(b, a, x);
    ListedThree(x, b, a);
    ListedThree(a, x, b);
    hide IsListing, SortsBefore;
    assert ThreeExchanges() == map[2 := b, 1 := a, 3 := x];
    assert ThreeExchanges() == map[3 := x, 2 := b, 1 := a];
    assert ThreeExchanges() == map[1 := a, 3 := x, 2 := b];
  }

  // ------------------------------------------------------------------
  // Lists and their keys
  // ------------------------------------------------------------------

  lemma KeysOfTake(xs: seq<Exchange>, n: nat)
    ensures KeysOf(Take(xs, n)) == Take(KeysOf(xs), n)
    ensures KeysOf(Drop(xs, n)) == Drop(KeysOf(xs), n)
    ensures forall x :: x in Take(xs, n) ==> x in xs
    ensures forall x :: x in Drop(xs, n) ==> x in xs
  {
  }

  /** Exchanges that a map files under their ids are its records in order. */
  lemma AreRecords(xs: seq<Exchange>, items: map<ID, Exchange>)
    requires Filed(items)
    requires forall x :: x in xs ==> x.id in items && items[x.id] == x
    ensures Known(KeysOf(xs), items) && xs == Records(KeysOf(xs), items)
  {
    forall i | 0 <= i < |xs| ensures KeysOf(xs)[i].id in items && items[KeysOf(xs)[i].id] == xs[i] {
      assert xs[i] in xs;
    }
  }
}
