/** The inbox list, told from the items alone. */
module InboxListing {
  import opened Optional
  import opened Inbox

  // Which rows the list holds, what each shows and in what order they come, said of the items' own fields.

  /** The item stands under its issue, or, without an issue, under its own id. */
  predicate StandsUnder(i: Item, key: nat) {
    i.issueId == Some(key) || (i.issueId == None && i.id == key)
  }

  predicate Stands(items: seq<Item>, key: nat, j: int) {
    0 <= j < |items| && !items[j].archived && StandsUnder(items[j], key)
  }

  predicate Anchored(items: seq<Item>, key: nat, j: int) {
    && Stands(items, key, j)
    && items[j].details.Some? && items[j].details.value.commentId.Some? && items[j].details.value.commentId.value != ""
  }

  /** Newer than the other, or as new and met first. */
  predicate Precedes(items: seq<Item>, j: int, i: int)
    requires 0 <= j < |items| && 0 <= i < |items|
  {
    items[i].createdAt < items[j].createdAt || (items[i].createdAt == items[j].createdAt && j <= i)
  }

  ghost predicate NewestStanding(items: seq<Item>, key: nat, j: int) {
    Stands(items, key, j) && forall i :: Stands(items, key, i) ==> Precedes(items, j, i)
  }

  ghost predicate NewestAnchored(items: seq<Item>, key: nat, j: int) {
    Anchored(items, key, j) && forall i :: Anchored(items, key, i) ==> Precedes(items, j, i)
  }

  /** The newest item; if it names no comment and others of the key do, with the comment of the newest of those. */
  ghost predicate MadeOf(items: seq<Item>, key: nat, newest: Item, row: Item) {
    if newest.details.Some? && newest.details.value.commentId.Some? then row == newest
    else
      || (row == newest && forall h :: !Anchored(items, key, h))
      || exists h :: NewestAnchored(items, key, h) &&
           row == newest.(details := Some(Details(items[h].details.value.commentId,
                                                  if newest.details.Some? then newest.details.value.rest else [])))
  }

  ghost predicate IsRow(items: seq<Item>, key: nat, row: Item) {
    exists j :: NewestStanding(items, key, j) && MadeOf(items, key, items[j], row)
  }

  /** The first item met of a key. */
  ghost predicate FirstMet(items: seq<Item>, key: nat, i: nat) {
    Stands(items, key, i) && forall j :: 0 <= j < i ==> !Stands(items, key, j)
  }

  // ----- a row -----

  lemma ListedStands(items: seq<Item>, key: nat, j: nat)
    requires j < |items|
    ensures Listed(key)(items[j]) <==> Stands(items, key, j)
    ensures Both(Listed(key), Any)(items[j]) <==> Stands(items, key, j)
    ensures Both(Listed(key), HasAnchor)(items[j]) <==> Anchored(items, key, j)
  {
  }

  lemma NewestIs(items: seq<Item>, key: nat, j: nat)
    requires j < |items|
    ensures IsNewest(items, Both(Listed(key), Any), j) ==> NewestStanding(items, key, j)
    ensures IsNewest(items, Both(Listed(key), HasAnchor), j) ==> NewestAnchored(items, key, j)
  {
    forall i: nat | i < |items|
      ensures Both(Listed(key), Any)(items[i]) <==> Stands(items, key, i)
      ensures Both(Listed(key), HasAnchor)(items[i]) <==> Anchored(items, key, i)
    {
      ListedStands(items, key, i);
    }
  }

  lemma RowIs(items: seq<Item>, key: nat)
    requires Group(Active(items), key) != []
    ensures IsRow(items, key, RowOf(Active(items), key))
  {
    var row := RowOf(Active(items), key);
    var j, h := RowIsNewest(items, key);
    NewestIs(items, key, j);
    if h.Some? { NewestIs(items, key, h.value); }
    forall i: nat | i < |items| ensures Both(Listed(key), HasAnchor)(items[i]) <==> Anchored(items, key, i) {
      ListedStands(items, key, i);
    }
    RowFields(items, key, items[j], row, h);
  }

  lemma RowFields(items: seq<Item>, key: nat, newest: Item, row: Item, h: Option<nat>)
    requires row.(details := newest.details) == newest
    requires CommentOf(newest).Some? || h.None? ==> row == newest
    requires h.Some? ==> NewestAnchored(items, key, h.value)
    requires h.Some? && CommentOf(newest).None? ==>
               && row.details.Some? && row.details.value.commentId == CommentOf(items[h.value])
               && row.details.value.rest == if newest.details.Some? then newest.details.value.rest else []
    requires h.None? ==> forall i :: !Anchored(items, key, i)
    ensures MadeOf(items, key, newest, row)
  {
    if h.Some? && CommentOf(newest).None? {
      assert row == newest.(details := Some(Details(items[h.value].details.value.commentId,
                                                    if newest.details.Some? then newest.details.value.rest else [])));
    }
  }

  // ----- the keys, as they are first met -----

  lemma {:induction false} GroupStands(items: seq<Item>, key: nat)
    ensures Group(Active(items), key) != [] <==> exists j :: Stands(items, key, j)
  {
    FilterTwice(items, Shown, OfKey(key));
    if Group(Active(items), key) != [] {
      var j := FilteredFrom(items, Listed(key));
      ListedStands(items, key, j);
    }
    if j :| Stands(items, key, j) {
      ListedStands(items, key, j);
      NotFilteredOut(items, Listed(key), j);
    }
  }

  lemma {:induction false} FilteredFrom(items: seq<Item>, ok: Item -> bool) returns (j: nat)
    requires Filter(items, ok) != []
    ensures j < |items| && ok(items[j])
  {
    j := 0;
    if !ok(items[0]) {
      var k := FilteredFrom(items[1..], ok);
      j := k + 1;
    }
  }

  lemma {:induction false} NotFilteredOut(items: seq<Item>, ok: Item -> bool, j: nat)
    requires j < |items| && ok(items[j])
    ensures Filter(items, ok) != []
  {
    if j > 0 { NotFilteredOut(items[1..], ok, j - 1); }
  }

  ghost predicate FirstsAre(items: seq<Item>, keys: seq<nat>, firsts: seq<nat>) {
    && |firsts| == |keys| && (forall t :: 0 <= t < |keys| ==> FirstMet(items, keys[t], firsts[t]))
    && forall a, b :: 0 <= a < b < |firsts| ==> firsts[a] < firsts[b]
  }

  lemma {:induction false} KeysFirstMet(items: seq<Item>, n: nat) returns (firsts: seq<nat>)
    requires n <= |items|
    ensures FirstsAre(items, Keys(Active(items[..n])), firsts) && forall t :: 0 <= t < |firsts| ==> firsts[t] < n
  {
    firsts := [];
    if n > 0 {
      firsts := KeysFirstMet(items, n - 1);
      var met := OneMoreMet(items, n - 1);
      if met { firsts := firsts + [n - 1]; }
    }
  }

  /** Whether the next item brings a key not met before. */
  lemma OneMoreMet(items: seq<Item>, n: nat) returns (met: bool)
    requires n < |items|
    ensures var (before, after, key) := (Keys(Active(items[..n])), Keys(Active(items[..n + 1])), KeyOf(items[n]));
      if met then after == before + [key] && FirstMet(items, key, n) else after == before
  {
    var x, front := items[n], items[..n];
    assert items[..n + 1] == front + [x];
    FilterConcat(front, [x], Shown);
    met := Shown(x) && KeyOf(x) !in Keys(Active(front));
    if Shown(x) {
      assert Active(items[..n + 1]) == Active(front) + [x];
      PushKey(Active(front), x);
      GroupNonEmpty(Active(front), KeyOf(x));
      GroupStands(front, KeyOf(x));
      if met { NewlyMet(items, n, KeyOf(x)); }
    } else {
      assert Active(front) + [] == Active(front);
    }
  }

  lemma NewlyMet(items: seq<Item>, n: nat, key: nat)
    requires n < |items| && !items[n].archived && KeyOf(items[n]) == key && !exists j :: Stands(items[..n], key, j)
    ensures FirstMet(items, key, n)
  {
    forall j | 0 <= j < n ensures !Stands(items, key, j) {
      assert !Stands(items[..n], key, j);
    }
  }

  // ----- the order -----

  lemma {:induction false} InsertAt(x: Item, sorted: seq<Item>) returns (p: nat)
    ensures p <= |sorted| && Insert(x, sorted) == sorted[..p] + [x] + sorted[p..]
    ensures forall k :: 0 <= k < p ==> sorted[k].createdAt > x.createdAt
  {
    p := 0;
    if sorted != [] && sorted[0].createdAt > x.createdAt {
      var q := InsertAt(x, sorted[1..]);
      p := q + 1;
      LaterPlace(sorted, x, q);
      assert forall k :: 1 <= k < p ==> sorted[k] == sorted[1..][k - 1];
    }
  }

  lemma LaterPlace<T>(s: seq<T>, x: T, q: nat)
    requires s != [] && q <= |s[1..]|
    ensures [s[0]] + (s[1..][..q] + [x] + s[1..][q..]) == s[..q + 1] + [x] + s[q + 1..]
  {
  }

  /** Where each row of a sorted list came from. */
  ghost predicate CameFrom(items: seq<Item>, sorted: seq<Item>, places: seq<nat>) {
    && |places| == |sorted| == |items|
    && (forall r :: 0 <= r < |places| ==> places[r] < |items| && sorted[r] == items[places[r]])
    && (forall r, s :: 0 <= r < s < |places| ==> places[r] != places[s])
    && (forall r, s :: 0 <= r < s < |places| && sorted[r].createdAt == sorted[s].createdAt ==> places[r] < places[s])
    && forall j: nat :: j < |items| ==> j in places
  }

  lemma {:induction false} SortIsStable(items: seq<Item>) returns (places: seq<nat>)
    ensures CameFrom(items, SortNewest(items), places)
  {
    places := [];
    if items != [] {
      var later := SortIsStable(items[1..]);
      var sorted := SortNewest(items[1..]);
      var p := InsertAt(items[0], sorted);
      places := Placed(later, p);
      InsertedFrom(items, sorted, later, p, places);
    }
  }

  /** Every place moves by one, and place 0 is inserted. */
  function Placed(later: seq<nat>, p: nat): seq<nat>
    requires p <= |later|
  {
    seq(|later| + 1, r requires 0 <= r <= |later| =>
      if r < p then later[r] + 1 else if r == p then 0 else later[r - 1] + 1)
  }

  lemma InsertedFrom(items: seq<Item>, sorted: seq<Item>, later: seq<nat>, p: nat, places: seq<nat>)
    requires items != [] && CameFrom(items[1..], sorted, later) && p <= |sorted| && places == Placed(later, p)
    requires forall k :: 0 <= k < p ==> sorted[k].createdAt > items[0].createdAt
    ensures CameFrom(items, sorted[..p] + [items[0]] + sorted[p..], places)
  {
    PlacedFrom(items, sorted, later, p, places, sorted[..p] + [items[0]] + sorted[p..]);
  }

  lemma PlacedFrom(items: seq<Item>, sorted: seq<Item>, later: seq<nat>, p: nat, places: seq<nat>, all: seq<Item>)
    requires items != [] && CameFrom(items[1..], sorted, later) && p <= |sorted| && places == Placed(later, p)
    requires forall k :: 0 <= k < p ==> sorted[k].createdAt > items[0].createdAt
    requires all == sorted[..p] + [items[0]] + sorted[p..]
    ensures CameFrom(items, all, places)
  {
    forall r | 0 <= r < |places| ensures places[r] < |items| && all[r] == items[places[r]] {
      PutAt(sorted, p, items[0], all, r);
      if r != p {
        var q := if r < p then r else r - 1;
        assert sorted[q] == items[1..][later[q]] && places[r] == later[q] + 1 && all[r] == sorted[q];
      }
    }
    forall r, s | 0 <= r < s < |places|
      ensures places[r] != places[s] && (all[r].createdAt == all[s].createdAt ==> places[r] < places[s])
    {
      PlacedPair(sorted, later, p, places, all, items[0], r, s);
    }
    forall j: nat | j < |items| ensures j in places { PlaceOf(items, later, p, places, j); }
  }

  lemma PutAt(sorted: seq<Item>, p: nat, x: Item, all: seq<Item>, k: nat)
    requires p <= |sorted| && all == sorted[..p] + [x] + sorted[p..] && k < |all|
    ensures |all| == |sorted| + 1 && all[k] == if k < p then sorted[k] else if k == p then x else sorted[k - 1]
  {
  }

  lemma PlacedPair(sorted: seq<Item>, later: seq<nat>, p: nat, places: seq<nat>, all: seq<Item>, x: Item, r: nat,
                   s: nat)
    requires |later| == |sorted| && p <= |later| && places == Placed(later, p) && r < s < |places| == |all|
    requires forall a, b :: 0 <= a < b < |later| ==>
               later[a] != later[b] && (sorted[a].createdAt == sorted[b].createdAt ==> later[a] < later[b])
    requires forall k :: 0 <= k < p ==> sorted[k].createdAt > x.createdAt
    requires all == sorted[..p] + [x] + sorted[p..]
    ensures places[r] != places[s] && (all[r].createdAt == all[s].createdAt ==> places[r] < places[s])
  {
    PutAt(sorted, p, x, all, r);
    PutAt(sorted, p, x, all, s);
    if r != p && s != p {
      var a, b := if r < p then r else r - 1, if s < p then s else s - 1;
      assert later[a] != later[b] && places[r] == later[a] + 1 && places[s] == later[b] + 1;
    } else if s == p {
      assert all[r].createdAt > x.createdAt;
    } else {
      assert places[r] == 0 && places[s] == later[s - 1] + 1;
    }
  }

  lemma PlaceOf(items: seq<Item>, later: seq<nat>, p: nat, places: seq<nat>, j: nat)
    requires j < |items| && |later| + 1 == |items| && p <= |later| && places == Placed(later, p)
    requires forall i: nat :: i < |items[1..]| ==> i in later
    ensures j in places
  {
    if j == 0 {
      assert places[p] == 0;
    } else {
      var i: nat := j - 1;
      assert i in later;
      var r :| 0 <= r < |later| && later[r] == i;
      assert places[if r < p then r else r + 1] == j;
    }
  }

  /** By time, newest first; of rows as new as each other, the one whose key was met first. */
  ghost predicate GoesBefore(items: seq<Item>, k: nat, row: Item, l: nat, other: Item) {
    || row.createdAt > other.createdAt
    || (row.createdAt == other.createdAt &&
        exists i: nat, j: nat :: FirstMet(items, k, i) && FirstMet(items, l, j) && i < j)
  }

  lemma {:induction false} MergedAt(active: seq<Item>, n: nat, t: nat)
    requires t < n <= |Keys(active)|
    ensures Group(active, Keys(active)[t]) != [] && Merged(active, n)[t] == RowOf(active, Keys(active)[t])
  {
    MergedNext(active, n);
    if t < n - 1 { MergedAt(active, n - 1, t); }
  }

  /** Main result: one row for each key an unarchived item stands under, and no other; each shows the newest item of its
      key, with a comment to go to if any item of the key has one; and they come in this order. */
  lemma ListingExactly(items: seq<Item>) returns (keys: seq<nat>)
    ensures var rows := Deduplicated(items);
      && |keys| == |rows|
      && (forall r :: 0 <= r < |rows| ==> IsRow(items, keys[r], rows[r]))
      && (forall k :: k in keys <==> exists j :: Stands(items, k, j))
      && forall r, s :: 0 <= r < s < |rows| ==>
           keys[r] != keys[s] && GoesBefore(items, keys[r], rows[r], keys[s], rows[s])
  {
    var active := Active(items);
    var met, n := Keys(active), |Keys(active)|;
    var merged := Merged(active, n);
    var places := SortIsStable(merged);
    keys := seq(n, r requires 0 <= r < n => met[places[r]]);
    assert items[..|items|] == items;
    var firsts := KeysFirstMet(items, |items|);
    KeysDistinct(active);
    SortedNewest(merged);
    forall r | 0 <= r < n ensures IsRow(items, keys[r], SortNewest(merged)[r]) {
      MergedAt(active, n, places[r]);
      RowIs(items, keys[r]);
    }
    forall k ensures k in keys <==> exists j :: Stands(items, k, j) {
      GroupNonEmpty(active, k);
      GroupStands(items, k);
      SameKeys(met, places, keys, k);
    }
    forall r, s | 0 <= r < s < n
      ensures keys[r] != keys[s] && GoesBefore(items, keys[r], SortNewest(merged)[r], keys[s], SortNewest(merged)[s])
    {
      OrderedPair(items, met, firsts, places, keys, SortNewest(merged), r, s);
    }
  }

  lemma SameKeys(met: seq<nat>, places: seq<nat>, keys: seq<nat>, k: nat)
    requires |places| == |keys| == |met|
    requires forall r :: 0 <= r < |places| ==> places[r] < |met| && keys[r] == met[places[r]]
    requires forall j: nat :: j < |met| ==> j in places
    ensures k in keys <==> k in met
  {
    if k in met {
      var t: nat :| t < |met| && met[t] == k;
      assert t in places;
      var r :| 0 <= r < |places| && places[r] == t;
      assert keys[r] == k;
    }
  }

  lemma OrderedPair(items: seq<Item>, met: seq<nat>, firsts: seq<nat>, places: seq<nat>, keys: seq<nat>,
                    rows: seq<Item>, r: nat, s: nat)
    requires |rows| == |places| == |keys| == |met| && r < s < |rows| && FirstsAre(items, met, firsts)
    requires places[r] < |met| && places[s] < |met| && places[r] != places[s]
    requires keys[r] == met[places[r]] && keys[s] == met[places[s]]
    requires forall a, b :: 0 <= a < b < |met| ==> met[a] != met[b]
    requires rows[r].createdAt >= rows[s].createdAt
    requires rows[r].createdAt == rows[s].createdAt ==> places[r] < places[s]
    ensures keys[r] != keys[s] && GoesBefore(items, keys[r], rows[r], keys[s], rows[s])
  {
    if rows[r].createdAt == rows[s].createdAt {
      assert FirstMet(items, keys[r], firsts[places[r]]) && FirstMet(items, keys[s], firsts[places[s]]);
    }
  }
}
