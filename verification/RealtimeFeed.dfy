/**
  The browser's live feed of the newest fifty exchanges, merged list by list
  (web/src/lib/realtime-feed.ts, web/src/lib/history.ts).
 */
module RealtimeFeed {
  import opened Common
  import opened Ordering
  import Capture

  const LIMIT: nat := 50

  /** What a summary shows besides its id, revision and place. */
  datatype Shown = Shown(
    transport: Capture.Transport,
    state: Capture.State,
    started: int,
    completed: Option<int>,
    requestBytes: nat,
    responseBytes: nat,
    datagramBytes: nat)

  /** `time` is what the page sorts by, in milliseconds: the completion time, or the start where there is none. */
  datatype Summary = Summary(id: ID, revision: nat, time: int, shown: Shown)

  /** `detail` is the revision of the loaded detail, if one is loaded. */
  datatype Item = Item(summary: Summary, detail: Option<nat>, error: string, unavailable: bool)

  function KeyOf(x: Summary): Key {
    Key(x.time, x.id)
  }

  // ------------------------------------------------------------------
  // Latest versions
  // ------------------------------------------------------------------

  /** The Map of mergeNewest after its loop: the last of the highest revisions of every id. */
  function Latest(items: seq<Summary>): map<ID, Summary> {
    if items == [] then map[]
    else Updated(Latest(items[..|items| - 1]), items[|items| - 1])
  }

  lemma LatestAppended(items: seq<Summary>, item: Summary)
    ensures Latest(items + [item]) == Updated(Latest(items), item)
  {
    assert (items + [item])[..|items|] == items;
  }

  function Updated(byId: map<ID, Summary>, item: Summary): map<ID, Summary> {
    if item.id !in byId || item.revision >= byId[item.id].revision then byId[item.id := item] else byId
  }

  ghost predicate IsLatest(byId: map<ID, Summary>, items: seq<Summary>) {
    && (forall x :: x in items ==> x.id in byId && x.revision <= byId[x.id].revision)
    && (forall id :: id in byId ==> byId[id].id == id && byId[id] in items)
  }

  lemma {:induction false} LatestIs(items: seq<Summary>)
    ensures IsLatest(Latest(items), items)
  {
    if items != [] {
      var n := |items| - 1;
      LatestIs(items[..n]);
      assert items == items[..n] + [items[n]];
      assert forall x :: x in items <==> x in items[..n] || x == items[n];
    }
  }

  /** The place in the list of what is kept of an id: no later entry of that id is as high, and no earlier one higher. */
  ghost predicate LastHighest(items: seq<Summary>, i: nat)
    requires i < |items|
  {
    && (forall j :: 0 <= j < i && items[j].id == items[i].id ==> items[j].revision <= items[i].revision)
    && (forall j :: i < j < |items| && items[j].id == items[i].id ==> items[j].revision < items[i].revision)
  }

  lemma {:induction false} KeepsLastHighest(items: seq<Summary>, i: nat)
    requires i < |items|
    ensures items[i].id in Latest(items) && (LastHighest(items, i) ==> Latest(items)[items[i].id] == items[i])
  {
    var n := |items| - 1;
    LatestIs(items);
    assert items[i] in items;
    if i < n {
      KeepsLastHighest(items[..n], i);
    } else if items[n].id in Latest(items[..n]) {
      LatestIs(items[..n]);
      var was := Latest(items[..n])[items[n].id];
      assert was in items[..n];
    }
  }

  /** Versions of one exchange agree when their revisions do, and a later revision is never at an older place. */
  ghost predicate Coherent(items: seq<Summary>) {
    forall x, y :: x in items && y in items && x.id == y.id ==>
      && (x.revision == y.revision ==> x == y)
      && (x.revision < y.revision ==> x.time <= y.time)
  }

  // ------------------------------------------------------------------
  // The sorted, cut list
  // ------------------------------------------------------------------

  ghost predicate Filed(byId: map<ID, Summary>) {
    forall id :: id in byId ==> byId[id].id == id
  }

  ghost function Keys(byId: map<ID, Summary>): set<Key> {
    set id | id in byId :: KeyOf(byId[id])
  }

  ghost predicate Known(keys: seq<Key>, byId: map<ID, Summary>) {
    forall i :: 0 <= i < |keys| ==> keys[i].id in byId && KeyOf(byId[keys[i].id]) == keys[i]
  }

  ghost function Records(keys: seq<Key>, byId: map<ID, Summary>): (xs: seq<Summary>)
    requires Known(keys, byId)
    ensures |xs| == |keys|
    ensures forall i :: 0 <= i < |keys| ==> xs[i] == byId[keys[i].id]
  {
    seq(|keys|, i requires 0 <= i < |keys| => byId[keys[i].id])
  }

  lemma KeyOwner(byId: map<ID, Summary>, k: Key)
    requires Filed(byId)
    ensures k in Keys(byId) <==> k.id in byId && KeyOf(byId[k.id]) == k
  {
  }

  lemma CutKnown(byId: map<ID, Summary>, n: nat)
    requires Filed(byId)
    ensures Known(Cut(Keys(byId), n), byId)
  {
    var keys := Cut(Keys(byId), n);
    forall i | 0 <= i < |keys| ensures keys[i].id in byId && KeyOf(byId[keys[i].id]) == keys[i] {
      assert keys[i] == Newest(Keys(byId))[i];
      assert keys[i] in Elements(Newest(Keys(byId)));
      KeyOwner(byId, keys[i]);
    }
  }

  /** The `n` newest entries, newest first. */
  ghost function Front(byId: map<ID, Summary>, n: nat): seq<Summary>
    requires Filed(byId)
  {
    CutKnown(byId, n);
    Records(Cut(Keys(byId), n), byId)
  }

  /** One merge of everything: what the feed should show. */
  ghost function Feed(items: seq<Summary>): seq<Summary> {
    LatestIs(items);
    Front(Latest(items), LIMIT)
  }

  /** Two maps agree on an id. */
  predicate Agree(a: map<ID, Summary>, b: map<ID, Summary>, id: ID) {
    id in a && id in b && a[id] == b[id]
  }

  ghost function Shared(a: map<ID, Summary>, b: map<ID, Summary>): map<ID, Summary> {
    map id | id in a && Agree(a, b, id) :: a[id]
  }

  /** The `n` ids of `strong` agree and outrank every entry on which the maps differ. */
  ghost predicate Outranks(strong: set<ID>, a: map<ID, Summary>, b: map<ID, Summary>) {
    && (forall id :: id in strong ==> Agree(a, b, id))
    && (forall s, id :: s in strong && id in a && !Agree(a, b, id) ==> Newer(KeyOf(a[s]), KeyOf(a[id])))
  }

  ghost function KeysAt(byId: map<ID, Summary>, ids: set<ID>): set<Key> {
    set id | id in ids && id in byId :: KeyOf(byId[id])
  }

  lemma {:induction false} KeyCount(byId: map<ID, Summary>, ids: set<ID>)
    requires Filed(byId) && ids <= byId.Keys
    ensures |KeysAt(byId, ids)| == |ids|
    decreases |ids|
  {
    if ids == {} {
      assert KeysAt(byId, {}) == {};
    } else {
      var x :| x in ids;
      KeyCount(byId, ids - {x});
      assert KeysAt(byId, ids) == KeysAt(byId, ids - {x}) + {KeyOf(byId[x])};
      assert KeyOf(byId[x]) !in KeysAt(byId, ids - {x});
    }
  }

  /** Dropping entries that `n` others outrank changes nothing in front. */
  lemma FrontIsShared(a: map<ID, Summary>, b: map<ID, Summary>, strong: set<ID>, n: nat)
    requires Filed(a) && Filed(b) && Outranks(strong, a, b) && |strong| >= n
    ensures Cut(Keys(Shared(a, b)), n) == Cut(Keys(a), n)
    ensures Front(Shared(a, b), n) == Front(a, n)
  {
    var shared := Shared(a, b);
    var above := KeysAt(shared, strong);
    KeyCount(shared, strong);
    forall k | k in Keys(shared) ensures k in Keys(a) {
      KeyOwner(shared, k);
      KeyOwner(a, k);
    }
    forall k | k in above ensures k in Keys(shared) && k.id in strong && k == KeyOf(a[k.id]) {
      KeyOwner(shared, k);
    }
    forall k, x | k in above && x in Keys(a) - Keys(shared) ensures Newer(k, x) {
      KeyOwner(a, x);
      KeyOwner(shared, x);
      assert x.id in a && !Agree(a, b, x.id);
    }
    assert above <= Keys(shared) && Keys(shared) <= Keys(a);
    CutIgnoresOutranked(Keys(shared), Keys(a), above, n);
    CutKnown(shared, n);
    CutKnown(a, n);
  }

  lemma SharedSymmetric(a: map<ID, Summary>, b: map<ID, Summary>)
    ensures Shared(a, b) == Shared(b, a)
  {
  }

  lemma SameFront(a: map<ID, Summary>, b: map<ID, Summary>, strong: set<ID>, n: nat)
    requires Filed(a) && Filed(b) && |strong| >= n
    requires Outranks(strong, a, b) && Outranks(strong, b, a)
    ensures Front(a, n) == Front(b, n)
  {
    FrontIsShared(a, b, strong, n);
    FrontIsShared(b, a, strong, n);
    SharedSymmetric(a, b);
  }

  // ------------------------------------------------------------------
  // Merging list by list
  // ------------------------------------------------------------------

  ghost function Ids(items: seq<Summary>): set<ID> {
    set x | x in items :: x.id
  }

  lemma FrontMembers(byId: map<ID, Summary>, n: nat)
    requires Filed(byId)
    ensures forall x :: x in Front(byId, n) ==> x.id in byId && byId[x.id] == x
    ensures forall x, id :: x in Front(byId, n) && id in byId && id !in Ids(Front(byId, n)) ==> Newer(KeyOf(x), KeyOf(byId[id]))
    ensures |Ids(Front(byId, n))| == |Front(byId, n)| == if |byId| <= n then |byId| else n
    ensures |byId| <= n ==> Ids(Front(byId, n)) == byId.Keys
  {
    CutKnown(byId, n);
    var all := Newest(Keys(byId));
    var front := Cut(Keys(byId), n);
    FrontIds(byId, n);
    forall x, id | x in Front(byId, n) && id in byId && id !in Ids(Front(byId, n)) ensures Newer(KeyOf(x), KeyOf(byId[id])) {
      KeyOwner(byId, KeyOf(byId[id]));
      assert KeyOf(byId[id]) in Elements(all);
      assert forall i :: 0 <= i < |front| ==> Front(byId, n)[i].id == front[i].id && front[i].id in Ids(Front(byId, n));
      TakeOrDrop(all, n, KeyOf(byId[id]));
      var j :| 0 <= j < |Front(byId, n)| && Front(byId, n)[j] == x;
      assert KeyOf(x) == front[j];
    }
  }

  lemma FrontIds(byId: map<ID, Summary>, n: nat)
    requires Filed(byId)
    ensures |Front(byId, n)| == if |byId| <= n then |byId| else n
    ensures |Ids(Front(byId, n))| == |Front(byId, n)|
    ensures |byId| <= n ==> Ids(Front(byId, n)) == byId.Keys
  {
    KeyCount(byId, byId.Keys);
    assert KeysAt(byId, byId.Keys) == Keys(byId);
    var front := Front(byId, n);
    CutKnown(byId, n);
    DistinctIds(front, Cut(Keys(byId), n));
    if |byId| <= n {
      assert Ids(front) <= byId.Keys;
      SameSize(Ids(front), byId.Keys);
    }
  }

  lemma SameSize(small: set<ID>, big: set<ID>)
    requires small <= big && |small| == |big|
    ensures small == big
  {
    assert big == small + (big - small);
    assert |big| == |small| + |big - small|;
  }

  lemma {:induction false} DistinctIds(xs: seq<Summary>, keys: seq<Key>)
    requires |xs| == |keys| && forall i :: 0 <= i < |xs| ==> xs[i].id == keys[i].id
    requires forall i, j :: 0 <= i < j < |keys| ==> keys[i].id != keys[j].id
    ensures |Ids(xs)| == |xs|
  {
    if xs != [] {
      var n := |xs| - 1;
      DistinctIds(xs[..n], keys[..n]);
      assert xs == xs[..n] + [xs[n]];
      assert Ids(xs) == Ids(xs[..n]) + {xs[n].id};
      assert xs[n].id !in Ids(xs[..n]);
    }
  }

  /** What one incoming list meets: the merge of everything so far, cut to the feed, with the list added. */
  ghost predicate Stage(a: map<ID, Summary>, all: map<ID, Summary>, kept: map<ID, Summary>,
                        before: seq<Summary>, feed: seq<Summary>, incoming: seq<Summary>) {
    && Coherent(before + incoming)
    && IsLatest(a, before) && IsLatest(all, before + incoming) && IsLatest(kept, feed + incoming)
    && (forall x :: x in feed ==> x.id in a && a[x.id] == x)
  }

  lemma ShownAgree(a: map<ID, Summary>, all: map<ID, Summary>, kept: map<ID, Summary>,
                   before: seq<Summary>, feed: seq<Summary>, incoming: seq<Summary>, id: ID)
    requires Stage(a, all, kept, before, feed, incoming)
    requires id in Ids(feed)
    ensures Agree(all, kept, id)
    ensures KeyOf(all[id]) == KeyOf(a[id]) || Newer(KeyOf(all[id]), KeyOf(a[id]))
  {
    var x :| x in feed && x.id == id;
    assert x in before && x in before + incoming && x in feed + incoming;
    assert kept[id] in before + incoming;
    assert forall y :: y in incoming ==> y in feed + incoming;
  }

  /** Where the two maps differ, the full one still has a version from before the list, which was not shown. */
  lemma HiddenOlder(a: map<ID, Summary>, all: map<ID, Summary>, kept: map<ID, Summary>,
                    before: seq<Summary>, feed: seq<Summary>, incoming: seq<Summary>, id: ID)
    requires Stage(a, all, kept, before, feed, incoming)
    requires id !in Ids(feed) && (id in all || id in kept) && !Agree(all, kept, id)
    ensures id in a && id in all && all[id] == a[id]
    ensures id in kept ==> KeyOf(kept[id]) == KeyOf(a[id]) || Newer(KeyOf(a[id]), KeyOf(kept[id]))
  {
    if id in kept {
      assert kept[id] in incoming;
      assert kept[id] in before + incoming;
    }
    assert id in all;
    assert forall y :: y in incoming ==> y in feed + incoming;
    assert all[id] in before;
    assert a[id] in before + incoming;
  }

  lemma NewerChain(x: Key, y: Key, z: Key)
    requires x == y || Newer(x, y)
    requires Newer(y, z)
    ensures Newer(x, z)
  {
  }

  lemma HiddenOutranked(a: map<ID, Summary>, all: map<ID, Summary>, kept: map<ID, Summary>,
                        before: seq<Summary>, feed: seq<Summary>, incoming: seq<Summary>, s: ID, id: ID)
    requires Stage(a, all, kept, before, feed, incoming)
    requires s in Ids(feed) && (id in all || id in kept) && !Agree(all, kept, id)
    requires id in a && id !in Ids(feed) ==> Newer(KeyOf(a[s]), KeyOf(a[id]))
    ensures s in all && s in kept
    ensures id in all ==> Newer(KeyOf(all[s]), KeyOf(all[id]))
    ensures id in kept ==> Newer(KeyOf(kept[s]), KeyOf(kept[id]))
  {
    ShownAgree(a, all, kept, before, feed, incoming, s);
    if id in Ids(feed) {
      ShownAgree(a, all, kept, before, feed, incoming, id);
    } else {
      HiddenOlder(a, all, kept, before, feed, incoming, id);
      NewerChain(KeyOf(all[s]), KeyOf(a[s]), KeyOf(a[id]));
      if id in kept && KeyOf(kept[id]) != KeyOf(a[id]) {
        NewerChain(KeyOf(kept[s]), KeyOf(a[id]), KeyOf(kept[id]));
      }
    }
  }

  lemma FeedOutranks(a: map<ID, Summary>, all: map<ID, Summary>, kept: map<ID, Summary>,
                     before: seq<Summary>, feed: seq<Summary>, incoming: seq<Summary>)
    requires Stage(a, all, kept, before, feed, incoming)
    requires forall s, id :: s in Ids(feed) && id in a && id !in Ids(feed) ==> s in a && Newer(KeyOf(a[s]), KeyOf(a[id]))
    ensures Outranks(Ids(feed), all, kept) && Outranks(Ids(feed), kept, all)
  {
    hide Stage, Ids;
    forall id | id in Ids(feed) ensures Agree(all, kept, id) {
      ShownAgree(a, all, kept, before, feed, incoming, id);
    }
    forall s, id | s in Ids(feed) && (id in all || id in kept) && !Agree(all, kept, id)
      ensures id in all ==> Newer(KeyOf(all[s]), KeyOf(all[id]))
      ensures id in kept ==> Newer(KeyOf(kept[s]), KeyOf(kept[id]))
    {
      HiddenOutranked(a, all, kept, before, feed, incoming, s, id);
    }
  }

  /** While everything fits in the feed, nothing is hidden and nothing differs. */
  lemma NothingHidden(a: map<ID, Summary>, all: map<ID, Summary>, kept: map<ID, Summary>,
                      before: seq<Summary>, feed: seq<Summary>, incoming: seq<Summary>)
    requires Stage(a, all, kept, before, feed, incoming) && Ids(feed) == a.Keys
    ensures all == kept
  {
    forall id | id in all || id in kept ensures Agree(all, kept, id) {
      if id in Ids(feed) {
        ShownAgree(a, all, kept, before, feed, incoming, id);
      } else if !Agree(all, kept, id) {
        HiddenOlder(a, all, kept, before, feed, incoming, id);
      }
    }
  }

  lemma Staged(before: seq<Summary>, incoming: seq<Summary>)
    requires Coherent(before + incoming)
    ensures var feed := Feed(before);
            && Stage(Latest(before), Latest(before + incoming), Latest(feed + incoming), before, feed, incoming)
            && Filed(Latest(before + incoming)) && Filed(Latest(feed + incoming)) && Filed(Latest(before))
            && feed == Front(Latest(before), LIMIT)
  {
    LatestIs(before);
    LatestIs(before + incoming);
    LatestIs(Feed(before) + incoming);
    FrontMembers(Latest(before), LIMIT);
  }

  lemma FrontOrder(byId: map<ID, Summary>, n: nat)
    requires Filed(byId)
    ensures forall s, id :: s in Ids(Front(byId, n)) && id in byId && id !in Ids(Front(byId, n)) ==>
      s in byId && Newer(KeyOf(byId[s]), KeyOf(byId[id]))
  {
    FrontMembers(byId, n);
  }

  /** Nothing is lost by cutting before the next list is merged. */
  lemma CutThenMerge(before: seq<Summary>, incoming: seq<Summary>)
    requires Coherent(before + incoming)
    ensures Feed(Feed(before) + incoming) == Feed(before + incoming)
  {
    hide Stage, Ids, Coherent, Front, Outranks;
    var feed := Feed(before);
    var a, all, kept := Latest(before), Latest(before + incoming), Latest(feed + incoming);
    Staged(before, incoming);
    FrontMembers(a, LIMIT);
    if |a| > LIMIT {
      FrontOrder(a, LIMIT);
      FeedOutranks(a, all, kept, before, feed, incoming);
      SameFront(all, kept, Ids(feed), LIMIT);
    } else {
      NothingHidden(a, all, kept, before, feed, incoming);
    }
  }

  function Concat(lists: seq<seq<Summary>>): seq<Summary> {
    if lists == [] then [] else Concat(lists[..|lists| - 1]) + lists[|lists| - 1]
  }

  /** The feed after merging the lists one after another. */
  ghost function Folded(lists: seq<seq<Summary>>): seq<Summary> {
    if lists == [] then [] else Feed(Folded(lists[..|lists| - 1]) + lists[|lists| - 1])
  }

  lemma CoherentPart(part: seq<Summary>, items: seq<Summary>)
    requires Coherent(items) && forall x :: x in part ==> x in items
    ensures Coherent(part)
  {
  }

  /** Merging list by list and cutting each time shows what one merge of everything would show. */
  lemma {:induction false} FoldIsOneMerge(lists: seq<seq<Summary>>)
    requires Coherent(Concat(lists))
    ensures Folded(lists) == Feed(Concat(lists))
  {
    if lists == [] {
      NothingToShow();
    } else {
      var n := |lists| - 1;
      CoherentPart(Concat(lists[..n]), Concat(lists));
      FoldIsOneMerge(lists[..n]);
      CutThenMerge(Concat(lists[..n]), lists[n]);
    }
  }

  lemma NothingToShow()
    ensures Feed([]) == []
  {
    FrontIds(map[], LIMIT);
  }

  // ------------------------------------------------------------------
  // The functions of the page
  // ------------------------------------------------------------------

  function KeyList(s: seq<Summary>): (ks: seq<Key>)
    ensures |ks| == |s| && forall i :: 0 <= i < |s| ==> ks[i] == KeyOf(s[i])
  {
    seq(|s|, i requires 0 <= i < |s| => KeyOf(s[i]))
  }

  /** The entries of the map, newest first. */
  ghost predicate IsSorted(s: seq<Summary>, byId: map<ID, Summary>) {
    KeyList(s) == Newest(Keys(byId)) && forall x :: x in s ==> x.id in byId && byId[x.id] == x
  }

  lemma SortedFront(s: seq<Summary>, byId: map<ID, Summary>, n: nat)
    requires Filed(byId) && IsSorted(s, byId)
    ensures Take(s, n) == Front(byId, n)
  {
    CutKnown(byId, n);
    forall i | 0 <= i < |Take(s, n)| ensures Take(s, n)[i] == Front(byId, n)[i] {
      assert s[i] in s;
      assert Cut(Keys(byId), n)[i] == KeyList(s)[i];
    }
  }

  lemma SplicedKeys(s: seq<Summary>, x: Summary, p: nat)
    requires p <= |s|
    ensures KeyList(s[..p] + [x] + s[p..]) == KeyList(s)[..p] + [KeyOf(x)] + KeyList(s)[p..]
    ensures forall y :: y in s[..p] + [x] + s[p..] ==> y in s || y == x
  {
  }

  lemma InsertedSorted(s: seq<Summary>, keys: set<Key>, x: Summary, p: nat)
    requires KeyList(s) == Newest(keys) && KeyOf(x) !in keys && p <= |s|
    requires forall i :: 0 <= i < p ==> Newer(KeyOf(s[i]), KeyOf(x))
    requires p < |s| ==> !Newer(KeyOf(s[p]), KeyOf(x))
    ensures KeyList(s[..p] + [x] + s[p..]) == Newest(keys + {KeyOf(x)})
  {
    RankIs(Newest(keys), KeyOf(x), p);
    Inserted(keys, KeyOf(x));
    SplicedKeys(s, x, p);
  }

  lemma KeysGrow(byId: map<ID, Summary>, ids: set<ID>, id: ID)
    requires Filed(byId) && ids <= byId.Keys && id in byId && id !in ids
    ensures KeysAt(byId, ids + {id}) == KeysAt(byId, ids) + {KeyOf(byId[id])}
    ensures KeyOf(byId[id]) !in KeysAt(byId, ids)
  {
  }

  lemma NoKeys(byId: map<ID, Summary>)
    requires Filed(byId)
    ensures KeysAt(byId, {}) == {} && KeysAt(byId, byId.Keys) == Keys(byId)
  {
  }

  method Place(s: seq<Summary>, x: Summary) returns (p: nat)
    ensures p <= |s| && forall i :: 0 <= i < p ==> Newer(KeyOf(s[i]), KeyOf(x))
    ensures p < |s| ==> !Newer(KeyOf(s[p]), KeyOf(x))
  {
    p := 0;
    while p < |s| && Newer(KeyOf(s[p]), KeyOf(x))
      invariant p <= |s|
      invariant forall i :: 0 <= i < p ==> Newer(KeyOf(s[i]), KeyOf(x))
    {
      p := p + 1;
    }
  }

  /** Sorts the entries of a map, whose own order is the order of insertion; the result does not depend on it. */
  method SortNewest(byId: map<ID, Summary>) returns (s: seq<Summary>)
    requires Filed(byId)
    ensures IsSorted(s, byId)
  {
    hide KeysAt;
    s := [];
    var todo := byId.Keys;
    NoKeys(byId);
    assert byId.Keys - todo == {};
    while todo != {}
      invariant todo <= byId.Keys
      invariant KeyList(s) == Newest(KeysAt(byId, byId.Keys - todo))
      invariant forall x :: x in s ==> x.id in byId && byId[x.id] == x
      decreases todo
    {
      var id :| id in todo;
      var x := byId[id];
      var p := Place(s, x);
      KeysGrow(byId, byId.Keys - todo, id);
      InsertedSorted(s, KeysAt(byId, byId.Keys - todo), x, p);
      SplicedKeys(s, x, p);
      s := s[..p] + [x] + s[p..];
      assert byId.Keys - (todo - {id}) == (byId.Keys - todo) + {id};
      todo := todo - {id};
    }
    assert byId.Keys - {} == byId.Keys;
  }

  function Without(items: seq<Summary>, id: ID): seq<Summary> {
    if items == [] then []
    else
      var n := |items| - 1;
      Without(items[..n], id) + (if items[n].id == id then [] else [items[n]])
  }

  /** The last entry of every id, as a Map keeps it. */
  function LastOf(items: seq<Summary>): seq<Summary> {
    if items == [] then []
    else
      var n := |items| - 1;
      Without(LastOf(items[..n]), items[n].id) + [items[n]]
  }

  lemma UpdatedWithout(byId: map<ID, Summary>, item: Summary, id: ID)
    ensures Updated(byId, item) - {id} == if item.id == id then byId - {id} else Updated(byId - {id}, item)
  {
  }

  lemma {:induction false} LatestWithout(items: seq<Summary>, id: ID)
    ensures Latest(Without(items, id)) == Latest(items) - {id}
  {
    if items != [] {
      var n := |items| - 1;
      LatestWithout(items[..n], id);
      UpdatedWithout(Latest(items[..n]), items[n], id);
      LatestAppended(Without(items[..n], id), items[n]);
      assert Without(items[..n], id) + [] == Without(items[..n], id);
    }
  }

  lemma LastOfAppended(items: seq<Summary>, item: Summary)
    ensures Latest(LastOf(items + [item])) == Latest(LastOf(items))[item.id := item]
  {
    assert (items + [item])[..|items|] == items;
    LatestWithout(LastOf(items), item.id);
    LatestAppended(Without(LastOf(items), item.id), item);
  }

  lemma {:induction false} WithoutAbsent(items: seq<Summary>, id: ID)
    requires forall x :: x in items ==> x.id != id
    ensures Without(items, id) == items
  {
    if items != [] {
      var n := |items| - 1;
      assert items == items[..n] + [items[n]];
      WithoutAbsent(items[..n], id);
    }
  }

  /** A list that repeats no id is kept as it is. */
  lemma {:induction false} LastOfDistinct(items: seq<Summary>)
    requires forall i, j :: 0 <= i < j < |items| ==> items[i].id != items[j].id
    ensures LastOf(items) == items
  {
    if items != [] {
      var n := |items| - 1;
      LastOfDistinct(items[..n]);
      WithoutAbsent(items[..n], items[n].id);
      assert items == items[..n] + [items[n]];
    }
  }

  /** The map of the current list by id; a later entry replaces an earlier one. */
  method FromEntries(current: seq<Summary>) returns (byId: map<ID, Summary>)
    ensures byId == Latest(LastOf(current))
  {
    byId := map[];
    for i := 0 to |current|
      invariant byId == Latest(LastOf(current[..i]))
    {
      LastOfAppended(current[..i], current[i]);
      assert current[..i + 1] == current[..i] + [current[i]];
      byId := byId[current[i].id := current[i]];
    }
    assert current[..|current|] == current;
  }

  /** That map followed by the loop of mergeNewest. */
  method Collect(current: seq<Summary>, incoming: seq<Summary>) returns (byId: map<ID, Summary>)
    ensures byId == Latest(LastOf(current) + incoming)
  {
    byId := FromEntries(current);
    hide Latest, LastOf;
    ghost var start := LastOf(current);
    assert start + incoming[..0] == start;
    for i := 0 to |incoming|
      invariant byId == Latest(start + incoming[..i])
    {
      var item := incoming[i];
      LatestAppended(start + incoming[..i], item);
      assert start + incoming[..i + 1] == start + incoming[..i] + [item];
      if item.id !in byId || item.revision >= byId[item.id].revision {
        byId := byId[item.id := item];
      }
    }
    assert incoming[..|incoming|] == incoming;
  }

  /** The newest version of every exchange, newest first. */
  method MergeNewest(current: seq<Summary>, incoming: seq<Summary>) returns (merged: seq<Summary>)
    ensures IsSorted(merged, Latest(LastOf(current) + incoming))
  {
    var byId := Collect(current, incoming);
    LatestIs(LastOf(current) + incoming);
    merged := SortNewest(byId);
  }

  function Summaries(items: seq<Item>): (s: seq<Summary>)
    ensures |s| == |items| && forall i :: 0 <= i < |s| ==> s[i] == items[i].summary
  {
    seq(|items|, i requires 0 <= i < |items| => items[i].summary)
  }

  /** A loaded detail belongs to the revision its summary shows. */
  predicate DetailCurrent(item: Item) {
    item.detail.Some? ==> item.detail.value == item.summary.revision
  }

  ghost predicate DistinctItems(items: seq<Item>) {
    forall i, j :: 0 <= i < j < |items| ==> items[i].summary.id != items[j].summary.id
  }

  /** An entry keeps what was loaded for the same revision, and starts afresh when it is new or has moved on. */
  ghost predicate CarriedOver(current: seq<Item>, item: Item) {
    if exists shown :: shown in current && shown.summary.id == item.summary.id
                       && shown.summary.revision == item.summary.revision
    then forall shown :: shown in current && shown.summary.id == item.summary.id
                         && shown.summary.revision == item.summary.revision ==>
           item.detail == shown.detail && item.error == shown.error && item.unavailable == shown.unavailable
    else item.detail == None && item.error == "" && !item.unavailable
  }

  ghost predicate Indexes(byId: map<ID, Item>, current: seq<Item>) {
    && (forall item :: item in current ==> item.summary.id in byId && byId[item.summary.id] == item)
    && (forall id :: id in byId ==> byId[id].summary.id == id && byId[id] in current)
  }

  method IndexItems(current: seq<Item>) returns (byId: map<ID, Item>)
    requires DistinctItems(current)
    ensures Indexes(byId, current)
  {
    byId := map[];
    for i := 0 to |current|
      invariant forall j :: 0 <= j < i ==> current[j].summary.id in byId && byId[current[j].summary.id] == current[j]
      invariant forall id :: id in byId ==> byId[id].summary.id == id && byId[id] in current
    {
      byId := byId[current[i].summary.id := current[i]];
    }
  }

  method CarryOver(byId: map<ID, Item>, ghost current: seq<Item>, x: Summary) returns (item: Item)
    requires Indexes(byId, current)
    ensures item.summary == x && CarriedOver(current, item)
    ensures (forall shown :: shown in current ==> DetailCurrent(shown)) ==> DetailCurrent(item)
  {
    if x.id in byId && byId[x.id].summary.revision == x.revision {
      item := byId[x.id].(summary := x);
      assert byId[x.id] in current;
    } else {
      item := Item(x, None, "", false);
    }
  }

  lemma FeedDistinct(items: seq<Summary>, feed: seq<Item>)
    requires Summaries(feed) == Feed(items)
    ensures DistinctItems(feed)
  {
    LatestIs(items);
    var keys := Cut(Keys(Latest(items)), LIMIT);
    CutKnown(Latest(items), LIMIT);
    forall i, j | 0 <= i < j < |feed| ensures feed[i].summary.id != feed[j].summary.id {
      assert Summaries(feed)[i] == Latest(items)[keys[i].id] && Summaries(feed)[j] == Latest(items)[keys[j].id];
      assert Newer(keys[i], keys[j]);
    }
  }

  /** One merge of the feed: it shows what one step of the fold shows. */
  method MergeRealtime(current: seq<Item>, incoming: seq<Summary>) returns (feed: seq<Item>)
    requires DistinctItems(current)
    ensures Summaries(feed) == Feed(Summaries(current) + incoming)
    ensures |feed| <= 50 && (|feed| < 50 ==> Ids(Summaries(feed)) == Ids(Summaries(current) + incoming))
    ensures DistinctItems(feed)
    ensures forall item :: item in feed ==> CarriedOver(current, item)
    ensures (forall item :: item in current ==> DetailCurrent(item)) ==> forall item :: item in feed ==> DetailCurrent(item)
  {
    hide Feed, Latest, IsSorted, CarriedOver, Indexes, Ids;
    var byId := IndexItems(current);
    ghost var items := Summaries(current) + incoming;
    var merged := MergeNewest([], Summaries(current) + incoming);
    assert LastOf([]) + items == items;
    FeedOfSorted(items, merged);
    var shown := Take(merged, LIMIT);
    feed := [];
    for i := 0 to |shown|
      invariant |feed| == i && forall j :: 0 <= j < i ==> feed[j].summary == shown[j]
      invariant forall item :: item in feed ==> CarriedOver(current, item)
      invariant (forall item :: item in current ==> DetailCurrent(item)) ==> forall item :: item in feed ==> DetailCurrent(item)
    {
      var item := CarryOver(byId, current, shown[i]);
      feed := feed + [item];
    }
    assert Summaries(feed) == shown;
    FeedDistinct(items, feed);
    FeedSize(items);
  }

  /** The feed holds fifty exchanges, or all there are. */
  lemma FeedSize(items: seq<Summary>)
    ensures |Feed(items)| <= 50 && (|Feed(items)| < 50 ==> Ids(Feed(items)) == Ids(items))
  {
    LatestIs(items);
    FrontIds(Latest(items), LIMIT);
    assert Ids(items) == Latest(items).Keys;
  }

  lemma FeedOfSorted(items: seq<Summary>, merged: seq<Summary>)
    requires IsSorted(merged, Latest(items))
    ensures Take(merged, LIMIT) == Feed(items)
  {
    LatestIs(items);
    SortedFront(merged, Latest(items), LIMIT);
  }
}
