/**
  The inbox list: one row per issue, the newest, with the newest comment to jump to.  Archived rows are dropped, rows
  without an issue stand for themselves, and the list is sorted newest first.
*/
module Inbox {
  import opened Optional
  import opened Sequences

  datatype Details = Details(commentId: Option<string>, rest: seq<string>)

  datatype Item = Item(
    id: nat,
    issueId: Option<nat>,
    archived: bool,
    createdAt: int,
    details: Option<Details>,
    title: string)

  function KeyOf(i: Item): nat {
    if i.issueId.Some? then i.issueId.value else i.id
  }

  function CommentOf(i: Item): Option<string> {
    if i.details.Some? then i.details.value.commentId else None
  }

  /** A comment id to jump to: present and not empty. */
  predicate HasAnchor(i: Item) {
    CommentOf(i).Some? && CommentOf(i).value != ""
  }

  // ----- sorting -----

  function Insert(x: Item, sorted: seq<Item>): (r: seq<Item>)
    ensures multiset(r) == multiset{x} + multiset(sorted) && |r| == |sorted| + 1
  {
    if sorted == [] || sorted[0].createdAt <= x.createdAt then [x] + sorted
    else
      assert sorted == [sorted[0]] + sorted[1..];
      [sorted[0]] + Insert(x, sorted[1..])
  }

  /** The runtime's stable sort by creation time, newest first. */
  function SortNewest(items: seq<Item>): (r: seq<Item>)
    ensures multiset(r) == multiset(items) && |r| == |items|
  {
    if items == [] then []
    else
      assert items == [items[0]] + items[1..];
      Insert(items[0], SortNewest(items[1..]))
  }

  predicate NewestFirst(items: seq<Item>) {
    forall i, j :: 0 <= i < j < |items| ==> items[i].createdAt >= items[j].createdAt
  }

  lemma {:induction false} InsertSorted(x: Item, sorted: seq<Item>)
    requires NewestFirst(sorted)
    ensures NewestFirst(Insert(x, sorted))
  {
    if sorted != [] && sorted[0].createdAt > x.createdAt {
      InsertSorted(x, sorted[1..]);
      var r := Insert(x, sorted[1..]);
      forall j | 0 <= j < |r| ensures r[j].createdAt <= sorted[0].createdAt {
        assert r[j] in multiset(r);
        assert r[j] == x || r[j] in sorted[1..];
      }
    }
  }

  lemma {:induction false} SortedNewest(items: seq<Item>)
    ensures NewestFirst(SortNewest(items))
  {
    if items != [] {
      SortedNewest(items[1..]);
      InsertSorted(items[0], SortNewest(items[1..]));
    }
  }

  /** A sorted list stays as it is. */
  lemma {:induction false} SortOfSorted(items: seq<Item>)
    requires NewestFirst(items)
    ensures SortNewest(items) == items
  {
    if items != [] {
      SortOfSorted(items[1..]);
      assert items == [items[0]] + items[1..];
    }
  }

  /** `items[j]` is the newest that satisfies `ok`, the first of them on a tie. */
  predicate IsNewest(items: seq<Item>, ok: Item -> bool, j: nat) {
    && j < |items| && ok(items[j])
    && forall i :: 0 <= i < |items| && ok(items[i]) ==>
         items[i].createdAt < items[j].createdAt || (items[i].createdAt == items[j].createdAt && j <= i)
  }

  function FirstOf(items: seq<Item>, ok: Item -> bool): Option<Item> {
    if items == [] then None else if ok(items[0]) then Some(items[0]) else FirstOf(items[1..], ok)
  }

  lemma {:induction false} FirstOfInsert(x: Item, sorted: seq<Item>, ok: Item -> bool)
    requires NewestFirst(sorted)
    ensures FirstOf(Insert(x, sorted), ok) ==
            if ok(x) && (FirstOf(sorted, ok).None? || FirstOf(sorted, ok).value.createdAt <= x.createdAt) then Some(x)
            else FirstOf(sorted, ok)
  {
    if sorted == [] {
    } else if sorted[0].createdAt <= x.createdAt {
      FirstOfIsIn(sorted, ok);
      assert ([x] + sorted)[1..] == sorted;
    } else {
      FirstOfInsert(x, sorted[1..], ok);
      var r := Insert(x, sorted[1..]);
      assert ([sorted[0]] + r)[1..] == r;
    }
  }

  lemma {:induction false} FirstOfIsIn(items: seq<Item>, ok: Item -> bool)
    ensures FirstOf(items, ok).Some? ==> FirstOf(items, ok).value in items && ok(FirstOf(items, ok).value)
    ensures FirstOf(items, ok).None? ==> forall i :: 0 <= i < |items| ==> !ok(items[i])
  {
    if items != [] && !ok(items[0]) {
      FirstOfIsIn(items[1..], ok);
    }
  }

  lemma NewestOfRest(items: seq<Item>, ok: Item -> bool, j: nat)
    requires items != [] && IsNewest(items[1..], ok, j)
    ensures !ok(items[0]) || items[0].createdAt < items[1..][j].createdAt ==> IsNewest(items, ok, j + 1)
    ensures ok(items[0]) && items[0].createdAt >= items[1..][j].createdAt ==> IsNewest(items, ok, 0)
  {
    var rest := items[1..];
    assert forall i :: 1 <= i < |items| ==> items[i] == rest[i - 1];
  }

  /** The first of a sorted list is the newest of the list, the first one on a tie. */
  lemma {:induction false} FirstIsNewest(items: seq<Item>, ok: Item -> bool) returns (j: nat)
    requires FirstOf(SortNewest(items), ok).Some?
    ensures IsNewest(items, ok, j) && items[j] == FirstOf(SortNewest(items), ok).value
  {
    var rest := items[1..];
    SortedNewest(rest);
    FirstOfInsert(items[0], SortNewest(rest), ok);
    if FirstOf(SortNewest(rest), ok).Some? {
      j := FirstIsNewest(rest, ok);
      NewestOfRest(items, ok, j);
      j := if ok(items[0]) && items[0].createdAt >= rest[j].createdAt then 0 else j + 1;
    } else {
      NoneOfSorted(rest, ok);
      assert forall i :: 1 <= i < |items| ==> items[i] == rest[i - 1];
      j := 0;
    }
  }

  lemma NoneOfSorted(items: seq<Item>, ok: Item -> bool)
    requires FirstOf(SortNewest(items), ok).None?
    ensures forall i :: 0 <= i < |items| ==> !ok(items[i])
  {
    NoneOfSame(items, SortNewest(items), ok);
  }

  lemma NoneOfSame(items: seq<Item>, sorted: seq<Item>, ok: Item -> bool)
    requires multiset(sorted) == multiset(items) && FirstOf(sorted, ok).None?
    ensures forall i :: 0 <= i < |items| ==> !ok(items[i])
  {
    forall i | 0 <= i < |items| ensures !ok(items[i]) {
      assert items[i] in multiset(sorted);
      var at :| 0 <= at < |sorted| && sorted[at] == items[i];
      NoneInside(sorted, ok, at);
    }
  }

  lemma {:induction false} NoneInside(items: seq<Item>, ok: Item -> bool, i: nat)
    requires FirstOf(items, ok).None? && i < |items|
    ensures !ok(items[i])
  {
    if i > 0 {
      NoneInside(items[1..], ok, i - 1);
    }
  }

  // ----- choosing and sorting -----

  function Filter(items: seq<Item>, ok: Item -> bool): seq<Item> {
    if items == [] then [] else if ok(items[0]) then [items[0]] + Filter(items[1..], ok) else Filter(items[1..], ok)
  }

  lemma {:induction false} FilterAt(items: seq<Item>, ok: Item -> bool, i: nat)
    requires i < |Filter(items, ok)|
    ensures ok(Filter(items, ok)[i])
  {
    if !ok(items[0]) {
      FilterAt(items[1..], ok, i);
    } else if i > 0 {
      FilterAt(items[1..], ok, i - 1);
    }
  }

  lemma {:induction false} FilterConcat(a: seq<Item>, b: seq<Item>, ok: Item -> bool)
    ensures Filter(a + b, ok) == Filter(a, ok) + Filter(b, ok)
  {
    if a == [] {
      assert a + b == b;
    } else {
      assert (a + b)[1..] == a[1..] + b;
      FilterConcat(a[1..], b, ok);
    }
  }

  lemma {:induction false} FilterInsert(x: Item, sorted: seq<Item>, ok: Item -> bool)
    requires NewestFirst(sorted)
    ensures Filter(Insert(x, sorted), ok) == if ok(x) then Insert(x, Filter(sorted, ok)) else Filter(sorted, ok)
  {
    if sorted == [] || sorted[0].createdAt <= x.createdAt {
      assert ([x] + sorted)[1..] == sorted;
      if ok(x) {
        FirstIsOldEnough(x, sorted, ok);
      }
    } else {
      FilterInsert(x, sorted[1..], ok);
      var r := Insert(x, sorted[1..]);
      assert ([sorted[0]] + r)[1..] == r;
      if ok(sorted[0]) {
        assert ([sorted[0]] + Filter(sorted[1..], ok))[1..] == Filter(sorted[1..], ok);
      }
    }
  }

  lemma {:induction false} FirstIsOldEnough(x: Item, sorted: seq<Item>, ok: Item -> bool)
    requires forall i :: 0 <= i < |sorted| ==> sorted[i].createdAt <= x.createdAt
    ensures Insert(x, Filter(sorted, ok)) == [x] + Filter(sorted, ok)
  {
    if sorted != [] && !ok(sorted[0]) {
      FirstIsOldEnough(x, sorted[1..], ok);
    }
  }

  /** Stability: choosing before or after sorting is the same. */
  lemma {:induction false} SortFilter(items: seq<Item>, ok: Item -> bool)
    ensures SortNewest(Filter(items, ok)) == Filter(SortNewest(items), ok)
  {
    if items != [] {
      SortFilter(items[1..], ok);
      SortedNewest(items[1..]);
      FilterInsert(items[0], SortNewest(items[1..]), ok);
      if ok(items[0]) {
        assert ([items[0]] + Filter(items[1..], ok))[1..] == Filter(items[1..], ok);
      }
    }
  }

  function Both(p: Item -> bool, q: Item -> bool): Item -> bool {
    i => p(i) && q(i)
  }

  lemma {:induction false} FilterTwice(items: seq<Item>, p: Item -> bool, q: Item -> bool)
    ensures Filter(Filter(items, p), q) == Filter(items, Both(p, q))
  {
    if items != [] {
      FilterTwice(items[1..], p, q);
      if p(items[0]) {
        assert ([items[0]] + Filter(items[1..], p))[1..] == Filter(items[1..], p);
      }
    }
  }

  lemma {:induction false} FirstOfFilter(items: seq<Item>, p: Item -> bool, q: Item -> bool)
    ensures FirstOf(Filter(items, p), q) == FirstOf(items, Both(p, q))
  {
    if items != [] {
      FirstOfFilter(items[1..], p, q);
      if p(items[0]) {
        assert ([items[0]] + Filter(items[1..], p))[1..] == Filter(items[1..], p);
      }
    }
  }

  // ----- groups -----

  predicate Shown(i: Item) {
    !i.archived
  }

  function OfKey(key: nat): Item -> bool {
    i => KeyOf(i) == key
  }

  predicate Any(i: Item) {
    true
  }

  function Active(items: seq<Item>): seq<Item> {
    Filter(items, Shown)
  }

  function Group(items: seq<Item>, key: nat): seq<Item> {
    Filter(items, OfKey(key))
  }

  /** The keys, each where it first occurs. */
  function Keys(items: seq<Item>): seq<nat> {
    if items == [] then []
    else
      var n := |items| - 1;
      if KeyOf(items[n]) in Keys(items[..n]) then Keys(items[..n]) else Keys(items[..n]) + [KeyOf(items[n])]
  }

  /** The first comment to jump to. */
  function FirstAnchor(group: seq<Item>): Option<string> {
    if group == [] then None else if HasAnchor(group[0]) then CommentOf(group[0]) else FirstAnchor(group[1..])
  }

  lemma {:induction false} FirstAnchorIs(group: seq<Item>)
    ensures FirstAnchor(group) ==
            if FirstOf(group, HasAnchor).Some? then CommentOf(FirstOf(group, HasAnchor).value) else None
  {
    if group != [] {
      FirstAnchorIs(group[1..]);
    }
  }

  function WithComment(d: Option<Details>, commentId: string): Details {
    if d.Some? then d.value.(commentId := Some(commentId)) else Details(Some(commentId), [])
  }

  /** The row of a sorted group. */
  function Merge(group: seq<Item>): Item
    requires group != []
  {
    var newest := group[0];
    var anchor := FirstAnchor(group);
    if CommentOf(newest).Some? || anchor.None? then newest
    else newest.(details := Some(WithComment(newest.details, anchor.value)))
  }

  lemma {:induction false} PushKey(items: seq<Item>, x: Item)
    ensures Keys(items + [x]) == if KeyOf(x) in Keys(items) then Keys(items) else Keys(items) + [KeyOf(x)]
    ensures Group(items + [x], KeyOf(x)) == Group(items, KeyOf(x)) + [x]
    ensures forall key :: key != KeyOf(x) ==> Group(items + [x], key) == Group(items, key)
  {
    assert (items + [x])[..|items|] == items;
    forall key ensures Group(items + [x], key) == Group(items, key) + if KeyOf(x) == key then [x] else [] {
      FilterConcat(items, [x], OfKey(key));
    }
  }

  lemma {:induction false} GroupNonEmpty(items: seq<Item>, key: nat)
    ensures key in Keys(items) <==> Group(items, key) != []
  {
    if items != [] {
      var n := |items| - 1;
      assert items == items[..n] + [items[n]];
      GroupNonEmpty(items[..n], key);
      PushKey(items[..n], items[n]);
    }
  }

  lemma {:induction false} KeysDistinct(items: seq<Item>)
    ensures forall a, b :: 0 <= a < b < |Keys(items)| ==> Keys(items)[a] != Keys(items)[b]
  {
    if items != [] {
      KeysDistinct(items[..|items| - 1]);
    }
  }

  /** The row of the group of `key`. */
  function RowOf(items: seq<Item>, key: nat): Item
    requires Group(items, key) != []
  {
    Merge(SortNewest(Group(items, key)))
  }

  /** The rows of the first `n` keys. */
  function Merged(items: seq<Item>, n: nat): (rows: seq<Item>)
    requires n <= |Keys(items)|
    ensures |rows| == n
  {
    if n == 0 then []
    else
      GroupNonEmpty(items, Keys(items)[n - 1]);
      Merged(items, n - 1) + [RowOf(items, Keys(items)[n - 1])]
  }

  function Deduplicated(items: seq<Item>): seq<Item> {
    SortNewest(Merged(Active(items), |Keys(Active(items))|))
  }

  // ----- the program -----

  lemma NextItem(active: seq<Item>, n: nat)
    requires n < |active|
    ensures var key := KeyOf(active[n]);
      && Keys(active[..n + 1]) == (if key in Keys(active[..n]) then Keys(active[..n]) else Keys(active[..n]) + [key])
      && Group(active[..n + 1], key) == Group(active[..n], key) + [active[n]]
      && (key !in Keys(active[..n]) ==> Group(active[..n], key) == [])
      && forall k :: k != key ==> Group(active[..n + 1], k) == Group(active[..n], k)
  {
    assert active[..n + 1] == active[..n] + [active[n]];
    PushKey(active[..n], active[n]);
    GroupNonEmpty(active[..n], KeyOf(active[n]));
  }

  method MakeGroups(active: seq<Item>) returns (order: seq<nat>, groups: map<nat, seq<Item>>)
    ensures order == Keys(active) && groups.Keys == set k | k in order
    ensures forall k :: k in groups ==> groups[k] == Group(active, k)
  {
    order, groups := [], map[];
    for n := 0 to |active|
      invariant order == Keys(active[..n]) && groups.Keys == set k | k in order
      invariant forall k :: k in groups ==> groups[k] == Group(active[..n], k)
    {
      var key := KeyOf(active[n]);
      NextItem(active, n);
      var group := if key in groups then groups[key] else [];
      if key !in groups {
        order := order + [key];
      }
      groups := groups[key := group + [active[n]]];
    }
    assert active[..|active|] == active;
  }

  method MergeGroup(unsorted: seq<Item>) returns (row: Item)
    requires unsorted != []
    ensures row == Merge(SortNewest(unsorted))
  {
    var group := SortNewest(unsorted);
    var newest := group[0];
    var commentId := CommentOf(newest);
    if commentId.None? {
      commentId := FirstAnchor(group);
      AnchorNotEmpty(group);
    }
    if commentId.Some? && commentId.value != "" && CommentOf(newest) != commentId {
      return newest.(details := Some(WithComment(newest.details, commentId.value)));
    }
    row := newest;
  }

  lemma {:induction false} AnchorNotEmpty(group: seq<Item>)
    ensures FirstAnchor(group).Some? ==> FirstAnchor(group).value != ""
  {
    if group != [] && !HasAnchor(group[0]) {
      AnchorNotEmpty(group[1..]);
    }
  }

  method DeduplicateInboxItems(items: seq<Item>) returns (rows: seq<Item>)
    ensures rows == Deduplicated(items)
  {
    var active := Filter(items, Shown);
    var order, groups := MakeGroups(active);
    var merged: seq<Item> := [];
    for n := 0 to |order|
      invariant merged == Merged(active, n)
    {
      GroupNonEmpty(active, order[n]);
      var row := MergeGroup(groups[order[n]]);
      merged := merged + [row];
    }
    rows := SortNewest(merged);
  }

  // ----- what the list shows -----

  lemma RowKey(items: seq<Item>, key: nat)
    requires Group(items, key) != []
    ensures KeyOf(RowOf(items, key)) == key
  {
    SortFilter(items, OfKey(key));
    FilterAt(SortNewest(items), OfKey(key), 0);
  }

  /** The groups of the listed items, as taken from all items. */
  function Listed(key: nat): Item -> bool {
    Both(Shown, OfKey(key))
  }

  lemma FirstOfGroup(items: seq<Item>, key: nat, ok: Item -> bool)
    ensures FirstOf(SortNewest(Group(Active(items), key)), ok) == FirstOf(SortNewest(items), Both(Listed(key), ok))
  {
    FilterTwice(items, Shown, OfKey(key));
    SortFilter(items, Listed(key));
    FirstOfFilter(SortNewest(items), Listed(key), ok);
  }

  /** Main result: a row is the newest unarchived item of its key, and if that has no comment, the comment of the newest
      item of the key that has one; `h` is that item. */
  lemma RowIsNewest(items: seq<Item>, key: nat) returns (j: nat, h: Option<nat>)
    requires Group(Active(items), key) != []
    ensures var row := RowOf(Active(items), key);
      && IsNewest(items, Both(Listed(key), Any), j)
      && row.(details := items[j].details) == items[j]
      && (CommentOf(items[j]).Some? || h.None? ==> row == items[j])
      && (h.Some? ==> IsNewest(items, Both(Listed(key), HasAnchor), h.value))
      && (h.Some? && CommentOf(items[j]).None? ==>
            && row.details.Some? && row.details.value.commentId == CommentOf(items[h.value])
            && row.details.value.rest == if items[j].details.Some? then items[j].details.value.rest else [])
      && (h.None? ==> forall i :: 0 <= i < |items| ==> !Both(Listed(key), HasAnchor)(items[i]))
  {
    var group := SortNewest(Group(Active(items), key));
    FirstOfGroup(items, key, Any);
    FirstOfGroup(items, key, HasAnchor);
    FirstAnchorIs(group);
    j := FirstIsNewest(items, Both(Listed(key), Any));
    if FirstOf(group, HasAnchor).Some? {
      var at := FirstIsNewest(items, Both(Listed(key), HasAnchor));
      h := Some(at);
    } else {
      h := None;
      NoneOfSorted(items, Both(Listed(key), HasAnchor));
    }
  }

  lemma FilterOne(x: Item, key: nat)
    ensures Group([x], key) == if KeyOf(x) == key then [x] else []
  {
    assert [x][1..] == [];
    assert Filter([x][1..], OfKey(key)) == [];
    assert OfKey(key)(x) <==> KeyOf(x) == key;
  }

  lemma MergedStep(items: seq<Item>, n: nat, key: nat)
    requires 0 < n <= |Keys(items)|
    ensures var last := Keys(items)[n - 1];
      && Group(items, last) != []
      && Group(Merged(items, n), key) ==
         Group(Merged(items, n - 1), key) + if last == key then [RowOf(items, last)] else []
  {
    var last := Keys(items)[n - 1];
    GroupNonEmpty(items, last);
    var row := RowOf(items, last);
    FilterConcat(Merged(items, n - 1), [row], OfKey(key));
    RowKey(items, last);
    FilterOne(row, key);
  }

  lemma NewKey(items: seq<Item>, n: nat, key: nat)
    requires 0 < n <= |Keys(items)|
    ensures key in Keys(items)[..n] <==> key in Keys(items)[..n - 1] || key == Keys(items)[n - 1]
    ensures !(key in Keys(items)[..n - 1] && key == Keys(items)[n - 1])
  {
    KeysDistinct(items);
    assert Keys(items)[..n] == Keys(items)[..n - 1] + [Keys(items)[n - 1]];
  }

  lemma {:induction false} MergedOfKey(items: seq<Item>, n: nat, key: nat)
    requires n <= |Keys(items)|
    ensures key in Keys(items)[..n] ==> Group(items, key) != [] && Group(Merged(items, n), key) == [RowOf(items, key)]
    ensures key !in Keys(items)[..n] ==> Group(Merged(items, n), key) == []
  {
    if n > 0 {
      MergedOfKey(items, n - 1, key);
      MergedStep(items, n, key);
      NewKey(items, n, key);
    }
  }

  /** Main result: a key has exactly one row if an unarchived item has it, and none otherwise; rows are newest first. */
  lemma OneRowPerKey(items: seq<Item>, key: nat)
    ensures Filter(Deduplicated(items), OfKey(key)) ==
            if Group(Active(items), key) == [] then [] else [RowOf(Active(items), key)]
    ensures NewestFirst(Deduplicated(items))
  {
    var active := Active(items);
    var n := |Keys(active)|;
    MergedOfKey(active, n, key);
    GroupNonEmpty(active, key);
    assert Keys(active)[..n] == Keys(active);
    SortFilter(Merged(active, n), OfKey(key));
    SortedNewest(Merged(active, n));
    if key in Keys(active) {
      SortOfSorted([RowOf(active, key)]);
    }
  }

  // ----- listing the list -----

  lemma {:induction false} TwoOfKey(rows: seq<Item>, a: nat, b: nat)
    requires a < b < |rows| && KeyOf(rows[a]) == KeyOf(rows[b])
    ensures |Group(rows, KeyOf(rows[a]))| >= 2
  {
    var key := KeyOf(rows[a]);
    assert rows == rows[..b] + rows[b..];
    FilterConcat(rows[..b], rows[b..], OfKey(key));
    assert rows[..b] == rows[..a] + rows[a..b];
    FilterConcat(rows[..a], rows[a..b], OfKey(key));
  }

  predicate KeysDiffer(rows: seq<Item>) {
    forall a, b :: 0 <= a < b < |rows| ==> KeyOf(rows[a]) != KeyOf(rows[b])
  }

  lemma {:induction false} KeysOfDistinct(rows: seq<Item>)
    requires KeysDiffer(rows)
    ensures |Keys(rows)| == |rows| && forall t :: 0 <= t < |rows| ==> Keys(rows)[t] == KeyOf(rows[t])
  {
    if rows != [] {
      KeysOfDistinct(rows[..|rows| - 1]);
    }
  }

  lemma {:induction false} GroupOfDistinct(rows: seq<Item>, t: nat)
    requires KeysDiffer(rows) && t < |rows|
    ensures Group(rows, KeyOf(rows[t])) == [rows[t]]
  {
    var key := KeyOf(rows[t]);
    if t > 0 {
      GroupOfDistinct(rows[1..], t - 1);
    } else {
      NoneOfKey(rows[1..], key);
    }
  }

  lemma {:induction false} NoneOfKey(rows: seq<Item>, key: nat)
    requires forall i :: 0 <= i < |rows| ==> KeyOf(rows[i]) != key
    ensures Group(rows, key) == []
  {
    if rows != [] {
      NoneOfKey(rows[1..], key);
    }
  }

  lemma MergeOne(x: Item)
    ensures Merge([x]) == x && SortNewest([x]) == [x]
  {
    assert [x][1..] == [];
    assert FirstAnchor([x]) == if HasAnchor(x) then CommentOf(x) else None;
  }

  lemma MergedNext(items: seq<Item>, n: nat)
    requires 0 < n <= |Keys(items)|
    ensures Group(items, Keys(items)[n - 1]) != []
    ensures Merged(items, n) == Merged(items, n - 1) + [RowOf(items, Keys(items)[n - 1])]
  {
    GroupNonEmpty(items, Keys(items)[n - 1]);
  }

  lemma RowOfDistinct(rows: seq<Item>, t: nat)
    requires KeysDiffer(rows) && t < |rows|
    ensures |Keys(rows)| == |rows| && Merged(rows, t + 1) == Merged(rows, t) + [rows[t]]
  {
    KeysOfDistinct(rows);
    GroupOfDistinct(rows, t);
    MergeOne(rows[t]);
    MergedNext(rows, t + 1);
  }

  lemma NextOfDistinct(rows: seq<Item>, n: nat)
    requires KeysDiffer(rows) && 0 < n <= |Keys(rows)| <= |rows| && Merged(rows, n - 1) == rows[..n - 1]
    ensures Merged(rows, n) == rows[..n]
  {
    RowOfDistinct(rows, n - 1);
    NextSlice(Merged(rows, n - 1), Merged(rows, n), rows, n);
  }

  lemma {:induction false} MergedOfDistinct(rows: seq<Item>, n: nat)
    requires KeysDiffer(rows) && n <= |Keys(rows)| <= |rows|
    ensures Merged(rows, n) == rows[..n]
  {
    if n > 0 {
      MergedOfDistinct(rows, n - 1);
      NextOfDistinct(rows, n);
    }
  }

  lemma {:induction false} AllActive(rows: seq<Item>)
    requires forall i :: 0 <= i < |rows| ==> Shown(rows[i])
    ensures Active(rows) == rows
  {
    if rows != [] {
      AllActive(rows[1..]);
    }
  }

  lemma RowsAreShown(items: seq<Item>, i: nat)
    requires i < |Deduplicated(items)|
    ensures Shown(Deduplicated(items)[i])
  {
    var active := Active(items);
    var row := Deduplicated(items)[i];
    assert row in multiset(Deduplicated(items));
    assert row in Merged(active, |Keys(active)|);
    MergedShown(items, |Keys(active)|);
  }

  lemma {:induction false} MergedShown(items: seq<Item>, n: nat)
    requires n <= |Keys(Active(items))|
    ensures forall t :: 0 <= t < n ==> Shown(Merged(Active(items), n)[t])
  {
    if n > 0 {
      MergedShown(items, n - 1);
      GroupNonEmpty(Active(items), Keys(Active(items))[n - 1]);
      RowShown(items, Keys(Active(items))[n - 1]);
    }
  }

  lemma RowShown(items: seq<Item>, key: nat)
    requires Group(Active(items), key) != []
    ensures Shown(RowOf(Active(items), key))
  {
    var j, h := RowIsNewest(items, key);
  }

  /** Main result: listing the listed rows again changes nothing. */
  lemma DeduplicatingTwice(items: seq<Item>)
    ensures Deduplicated(Deduplicated(items)) == Deduplicated(items)
  {
    var rows := Deduplicated(items);
    forall i | 0 <= i < |rows| ensures Shown(rows[i]) {
      RowsAreShown(items, i);
    }
    AllActive(rows);
    forall a, b | 0 <= a < b < |rows| ensures KeyOf(rows[a]) != KeyOf(rows[b]) {
      if KeyOf(rows[a]) == KeyOf(rows[b]) {
        TwoOfKey(rows, a, b);
        OneRowPerKey(items, KeyOf(rows[a]));
      }
    }
    KeysOfDistinct(rows);
    MergedOfDistinct(rows, |rows|);
    assert rows[..|rows|] == rows;
    OneRowPerKey(items, 0);
    SortOfSorted(rows);
  }
}
