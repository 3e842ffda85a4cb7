/**
  The newest-first order that RAM history, SQLite history, the history API and
  the browser feed all sort by: later ordering time first, then larger id.

  Times are nanoseconds. Exchange ids are 128-bit numbers printed as 32 hex
  digits, so comparing the printed ids is comparing the numbers.
 */
module Ordering {

  datatype Key = Key(time: int, id: nat)

  predicate Newer(a: Key, b: Key) {
    a.time > b.time || (a.time == b.time && a.id > b.id)
  }

  ghost predicate NewestFirst(s: seq<Key>) {
    forall i, j :: 0 <= i < j < |s| ==> Newer(s[i], s[j])
  }

  ghost function Elements<T>(s: seq<T>): set<T> {
    set x | x in s
  }

  /** The keys strictly older than a boundary. */
  ghost function Below(keys: set<Key>, boundary: Key): set<Key> {
    set k | k in keys && Newer(boundary, k)
  }

  ghost predicate IsNewest(top: Key, keys: set<Key>) {
    top in keys && forall k :: k in keys && k != top ==> Newer(top, k)
  }

  lemma NewestExists(keys: set<Key>) returns (top: Key)
    requires keys != {}
    ensures IsNewest(top, keys)
    decreases |keys|
  {
    var x :| x in keys;
    var rest := keys - {x};
    assert forall k :: k in keys ==> k == x || k in rest;
    if rest == {} {
      assert keys == {x};
      top := x;
    } else {
      top := NewestExists(rest);
      if Newer(x, top) {
        top := x;
      }
    }
  }

  ghost predicate SortedListing(s: seq<Key>, keys: set<Key>) {
    NewestFirst(s) && Elements(s) == keys && |s| == |keys|
  }

  lemma {:induction false} ListingExists(keys: set<Key>) returns (s: seq<Key>)
    ensures SortedListing(s, keys)
    decreases |keys|
  {
    if keys == {} {
      s := [];
    } else {
      var top := NewestExists(keys);
      var tail := ListingExists(keys - {top});
      assert forall j :: 0 <= j < |tail| ==> tail[j] in Elements(tail);
      assert forall k :: k in [top] + tail <==> k == top || k in Elements(tail);
      s := [top] + tail;
    }
  }

  lemma SomeListing(keys: set<Key>)
    ensures exists s :: SortedListing(s, keys)
  {
    var s := ListingExists(keys);
  }

  /** The one newest-first listing of a set of keys (see SortedIsNewest). */
  ghost function Newest(keys: set<Key>): (s: seq<Key>)
    ensures NewestFirst(s)
    ensures Elements(s) == keys
    ensures |s| == |keys|
  {
    SomeListing(keys);
    var s :| SortedListing(s, keys);
    s
  }

  /** The `n` newest keys, newest first. */
  ghost function Cut(keys: set<Key>, n: nat): seq<Key> {
    Take(Newest(keys), n)
  }

  function Take<T>(s: seq<T>, n: nat): seq<T> {
    if |s| <= n then s else s[..n]
  }

  function Drop<T>(s: seq<T>, n: nat): seq<T> {
    if |s| <= n then [] else s[n..]
  }

  lemma TakeOrDrop(s: seq<Key>, n: nat, k: Key)
    requires NewestFirst(s)
    ensures k in s <==> k in Take(s, n) || k in Drop(s, n)
    ensures !(k in Take(s, n) && k in Drop(s, n))
    ensures forall j :: j in Take(s, n) && k in Drop(s, n) ==> Newer(j, k)
  {
    assert s == Take(s, n) + Drop(s, n);
  }

  lemma {:induction false} SortedUnique(s: seq<Key>, t: seq<Key>)
    requires NewestFirst(s) && NewestFirst(t)
    requires Elements(s) == Elements(t)
    ensures s == t
  {
    assert t != [] ==> t[0] in Elements(t);
    if s == [] {
    } else {
      assert s[0] in Elements(t) && s[0] in t;
      assert t[0] in Elements(s) && t[0] in s;
      assert s[0] == t[0];
      forall k ensures k in s[1..] <==> k in t[1..] {
        assert k in s <==> k in Elements(s);
        assert k in t <==> k in Elements(t);
        assert k in s[1..] <==> k in s && k != s[0];
        assert k in t[1..] <==> k in t && k != t[0];
      }
      SortedUnique(s[1..], t[1..]);
    }
  }

  /** Any two ways to sort the same keys agree: the order is total. */
  lemma SortedIsNewest(s: seq<Key>)
    requires NewestFirst(s)
    ensures s == Newest(Elements(s))
    ensures |Elements(s)| == |s|
  {
    SortedUnique(s, Newest(Elements(s)));
  }

  lemma SortedElementCount(s: seq<Key>)
    requires NewestFirst(s)
    ensures |Elements(s)| == |s|
  {
    SortedIsNewest(s);
  }

  /** How many leading keys of a sorted listing are newer than `x`. */
  ghost function Rank(s: seq<Key>, x: Key): (p: nat)
    requires NewestFirst(s)
    ensures p <= |s|
    ensures forall i :: 0 <= i < p ==> Newer(s[i], x)
    ensures forall i :: p <= i < |s| ==> !Newer(s[i], x)
  {
    if s == [] || !Newer(s[0], x) then 0 else 1 + Rank(s[1..], x)
  }

  lemma {:induction false} RankIs(s: seq<Key>, x: Key, p: nat)
    requires NewestFirst(s) && p <= |s|
    requires forall i :: 0 <= i < p ==> Newer(s[i], x)
    requires p < |s| ==> !Newer(s[p], x)
    ensures Rank(s, x) == p
  {
    if p > 0 {
      assert Newer(s[0], x);
      RankIs(s[1..], x, p - 1);
    }
  }

  /** Splicing a key in at its rank keeps a listing sorted. */
  lemma SpliceSorted(s: seq<Key>, x: Key)
    requires NewestFirst(s) && x !in s
    ensures NewestFirst(s[..Rank(s, x)] + [x] + s[Rank(s, x)..])
  {
    var p := Rank(s, x);
    var v := s[..p] + [x] + s[p..];
    forall i, j | 0 <= i < j < |v| ensures Newer(v[i], v[j]) {
      if i != p && j != p {
        var i', j' := if i < p then i else i - 1, if j < p then j else j - 1;
        assert v[i] == s[i'] && v[j] == s[j'];
      } else if i == p {
        assert v[j] == s[j - 1];
      } else {
        assert v[i] == s[i];
      }
    }
  }

  lemma SpliceElements(s: seq<Key>, x: Key, p: nat)
    requires p <= |s|
    ensures Elements(s[..p] + [x] + s[p..]) == Elements(s) + {x}
  {
    var v := s[..p] + [x] + s[p..];
    forall k ensures k in v <==> k in s || k == x {
      assert s == s[..p] + s[p..];
    }
  }

  lemma SpliceFront(s: seq<Key>, x: Key, p: nat, n: nat)
    requires n <= p <= |s|
    ensures Take(s[..p] + [x] + s[p..], n) == Take(s, n)
  {
  }

  /** Where a new key lands in the listing. */
  lemma Inserted(keys: set<Key>, x: Key)
    requires x !in keys
    ensures var s := Newest(keys); var p := Rank(s, x);
            Newest(keys + {x}) == s[..p] + [x] + s[p..]
  {
    var s := Newest(keys);
    var p := Rank(s, x);
    var v := s[..p] + [x] + s[p..];
    assert x !in s by { assert x !in Elements(s); }
    SpliceSorted(s, x);
    SpliceElements(s, x, p);
    SortedUnique(v, Newest(keys + {x}));
  }

  /** A sorted listing starts with everything newer than `x`. */
  lemma OutrankingCount(keys: set<Key>, x: Key, above: set<Key>)
    requires above <= keys
    requires forall a :: a in above ==> Newer(a, x)
    ensures |above| <= Rank(Newest(keys), x)
  {
    var s := Newest(keys);
    var front := s[..Rank(s, x)];
    forall a | a in above ensures a in Elements(front) {
      assert a in Elements(s);
      var i :| 0 <= i < |s| && s[i] == a;
      assert front[i] == a;
    }
    SortedElementCount(front);
    SubsetSize(above, Elements(front));
  }

  /** A key's rank is the number of keys newer than it, and decides whether it is among the `n` newest. */
  lemma RankCounts(keys: set<Key>, x: Key, n: nat)
    requires x in keys
    ensures x in Cut(keys, n) <==> |set k | k in keys && Newer(k, x)| < n
  {
    var s := Newest(keys);
    var p := Rank(s, x);
    var above := set k | k in keys && Newer(k, x);
    forall k ensures k in above <==> k in Elements(s[..p]) {
      assert k in keys <==> k in Elements(s);
      if k in above {
        var i :| 0 <= i < |s| && s[i] == k;
        assert s[..p][i] == k;
      }
    }
    assert above == Elements(s[..p]);
    SortedElementCount(s[..p]);
    assert x in Elements(s);
    var i :| 0 <= i < |s| && s[i] == x;
    PlaceIsRank(s, x, i);
    TakeOrDrop(s, n, x);
    if i < n {
      assert Take(s, n)[i] == x;
    } else {
      assert Drop(s, n)[i - n] == x;
    }
  }

  lemma {:induction false} PlaceIsRank(s: seq<Key>, x: Key, i: nat)
    requires NewestFirst(s) && i < |s| && s[i] == x
    ensures Rank(s, x) == i
  {
    if i > 0 {
      assert Newer(s[0], s[i]);
      PlaceIsRank(s[1..], x, i - 1);
    }
  }

  /** Adding a key that `n` others outrank does not change the `n` newest. */
  lemma CutIgnoresOne(keys: set<Key>, x: Key, above: set<Key>, n: nat)
    requires x !in keys
    requires above <= keys && |above| >= n
    requires forall a :: a in above ==> Newer(a, x)
    ensures Cut(keys + {x}, n) == Cut(keys, n)
  {
    Inserted(keys, x);
    OutrankingCount(keys, x, above);
    SpliceFront(Newest(keys), x, Rank(Newest(keys), x), n);
  }

  lemma SubsetSize<T>(small: set<T>, big: set<T>)
    requires small <= big
    ensures |small| <= |big|
  {
    assert big == small + (big - small);
  }

  /** Dropping keys that `n` kept keys outrank does not change the `n` newest. */
  lemma {:induction false} CutIgnoresOutranked(kept: set<Key>, all: set<Key>, above: set<Key>, n: nat)
    requires kept <= all
    requires above <= kept && |above| >= n
    requires forall a, x :: a in above && x in all - kept ==> Newer(a, x)
    ensures Cut(kept, n) == Cut(all, n)
    decreases |all - kept|
  {
    if all - kept == {} {
      assert all == kept;
    } else {
      var x :| x in all - kept;
      assert (all - {x}) - kept == (all - kept) - {x};
      CutIgnoresOutranked(kept, all - {x}, above, n);
      CutIgnoresOne(all - {x}, x, above, n);
      assert (all - {x}) + {x} == all;
    }
  }

  lemma SuffixBelow(s: seq<Key>, n: nat)
    requires NewestFirst(s) && 0 < n <= |s|
    ensures Elements(s[n..]) == Below(Elements(s), s[n - 1])
  {
    forall k ensures k in s[n..] <==> k in s && Newer(s[n - 1], k) {
      if k in s && Newer(s[n - 1], k) {
        var i :| 0 <= i < |s| && s[i] == k;
        assert s[n..][i - n] == k;
      }
    }
  }

  /** Restarting below the n-th newest key continues with the keys after it. */
  lemma NewestBelow(keys: set<Key>, n: nat)
    requires 0 < n <= |keys|
    ensures Newest(Below(keys, Newest(keys)[n - 1])) == Newest(keys)[n..]
  {
    SuffixBelow(Newest(keys), n);
    SortedIsNewest(Newest(keys)[n..]);
  }
}
