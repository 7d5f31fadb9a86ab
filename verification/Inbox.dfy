/** One inbox line per issue, and the optimistic archive (packages/core/inbox/queries.ts,
    packages/core/inbox/mutations.ts, apps/mobile/lib/inbox-display.ts). */
module Inbox {
  import opened Text
  import opened Sequences
  import opened SortedAppend

  datatype Item = Item(id: string, issueId: Option<string>, createdAt: int, read: bool, archived: bool, title: string)

  const NEWER: (Item, Item) -> bool := (a: Item, b: Item) => a.createdAt > b.createdAt

  /** `item.issue_id ?? item.id` */
  function KeyOf(i: Item): string {
    if i.issueId.Some? then i.issueId.value else i.id
  }

  function Active(items: seq<Item>): seq<Item> {
    if items == [] then []
    else Active(items[..|items| - 1]) + (if items[|items| - 1].archived then [] else [items[|items| - 1]])
  }

  /** Keys in the order of their first item: the iteration order of the group map. */
  function Keys(items: seq<Item>): seq<string> {
    if items == [] then []
    else
      var before, key := Keys(items[..|items| - 1]), KeyOf(items[|items| - 1]);
      if key in before then before else before + [key]
  }

  function Group(items: seq<Item>, key: string): seq<Item> {
    if items == [] then []
    else Group(items[..|items| - 1], key) + (if KeyOf(items[|items| - 1]) == key then [items[|items| - 1]] else [])
  }

  lemma {:induction false} GroupMembers(items: seq<Item>, key: string)
    ensures forall i :: i in Group(items, key) <==> i in items && KeyOf(i) == key
    ensures key in Keys(items) <==> Group(items, key) != []
  {
    if items != [] {
      GroupMembers(items[..|items| - 1], key);
      assert items == items[..|items| - 1] + [items[|items| - 1]];
    }
  }

  /** The first of a group sorted newest first. */
  function Winner(items: seq<Item>, key: string): Item
    requires key in Keys(items)
  {
    GroupMembers(items, key);
    SortPermutes(NEWER, Group(items, key));
    Sort(NEWER, Group(items, key))[0]
  }

  function Winners(items: seq<Item>, keys: seq<string>): (r: seq<Item>)
    requires forall key :: key in keys ==> key in Keys(items)
    ensures |r| == |keys|
  {
    seq(|keys|, i requires 0 <= i < |keys| => Winner(items, keys[i]))
  }

  function Deduplicated(items: seq<Item>): seq<Item> {
    Sort(NEWER, Winners(Active(items), Keys(Active(items))))
  }

  /** The groups as the source's map: `order` is the insertion order of its keys. */
  method Grouped(active: seq<Item>) returns (order: seq<string>, groups: map<string, seq<Item>>)
    ensures order == Keys(active)
    ensures forall key :: key in groups <==> key in order
    ensures forall key :: key in groups ==> groups[key] == Group(active, key)
  {
    order, groups := [], map[];
    for i := 0 to |active|
      invariant order == Keys(active[..i])
      invariant forall key :: key in groups <==> key in order
      invariant forall key :: key in groups ==> groups[key] == Group(active[..i], key)
    {
      assert active[..i + 1][..i] == active[..i];
      var item := active[i];
      var key := KeyOf(item);
      GroupMembers(active[..i], key);
      var group := if key in groups then groups[key] else [];
      if key !in groups {
        order := order + [key];
      }
      groups := groups[key := group + [item]];
    }
    assert active[..|active|] == active;
  }

  method DeduplicateInboxItems(items: seq<Item>) returns (r: seq<Item>)
    ensures r == Deduplicated(items)
  {
    hide Sort, Keys, Group;
    var active := Active(items);
    var order, groups := Grouped(active);
    var merged: seq<Item> := [];
    for i := 0 to |order|
      invariant |merged| == i && forall j :: 0 <= j < i ==> merged[j] == Winner(active, order[j])
    {
      GroupMembers(active, order[i]);
      var group := Sort(NEWER, groups[order[i]]);
      SortPermutes(NEWER, groups[order[i]]);
      merged := merged + [group[0]];
    }
    assert merged == Winners(active, order);
    return Sort(NEWER, merged);
  }

  // ---------------------------------------------------------------------------
  // Stable sorting newest first
  // ---------------------------------------------------------------------------

  predicate NewestFirst(xs: seq<Item>) {
    forall i, j :: 0 <= i < j < |xs| ==> xs[i].createdAt >= xs[j].createdAt
  }

  lemma InsertMembers(xs: seq<Item>, x: Item)
    ensures multiset(Insert(NEWER, xs, x)) == multiset(xs) + multiset{x}
    ensures forall y :: y in Insert(NEWER, xs, x) <==> y in xs || y == x
  {
    InsertPermutes(NEWER, xs, x);
    assert forall y :: y in Insert(NEWER, xs, x) <==> y in multiset(Insert(NEWER, xs, x));
  }

  lemma SortNewest(xs: seq<Item>)
    ensures NewestFirst(Sort(NEWER, xs))
    ensures multiset(Sort(NEWER, xs)) == multiset(xs)
    ensures forall x :: x in Sort(NEWER, xs) <==> x in xs
  {
    SortPermutes(NEWER, xs);
    SortOrders(NEWER, xs);
    assert forall i, j :: 0 <= i < j < |xs| ==> !NEWER(Sort(NEWER, xs)[j], Sort(NEWER, xs)[i]);
    assert forall x :: x in Sort(NEWER, xs) <==> x in multiset(Sort(NEWER, xs));
  }

  lemma {:induction false} SortSorted(xs: seq<Item>)
    requires NewestFirst(xs)
    ensures Sort(NEWER, xs) == xs
  {
    if xs != [] {
      var front, x := xs[..|xs| - 1], xs[|xs| - 1];
      assert xs == front + [x];
      SortSorted(front);
      InsertLast(NEWER, front, x);
    }
  }

  /** The items of all other keys. */
  function Drop(xs: seq<Item>, key: string): seq<Item> {
    if xs == [] then [] else (if KeyOf(xs[0]) == key then [] else [xs[0]]) + Drop(xs[1..], key)
  }

  lemma {:induction false} DropAppend(a: seq<Item>, b: seq<Item>, key: string)
    ensures Drop(a + b, key) == Drop(a, key) + Drop(b, key)
  {
    hide KeyOf;
    if a == [] {
      assert a + b == b;
    } else {
      assert (a + b)[1..] == a[1..] + b;
      DropAppend(a[1..], b, key);
    }
  }

  lemma {:induction false} DropMembers(xs: seq<Item>, key: string)
    ensures forall x :: x in Drop(xs, key) <==> x in xs && KeyOf(x) != key
  {
    if xs != [] {
      DropMembers(xs[1..], key);
      assert xs == [xs[0]] + xs[1..];
    }
  }

  lemma InsertOlder(xs: seq<Item>, x: Item)
    requires xs == [] || NEWER(x, xs[0])
    ensures Insert(NEWER, xs, x) == [x] + xs
  {
  }

  /** Dropping a key and inserting commute on a sorted list. */
  lemma {:induction false} InsertDrop(xs: seq<Item>, x: Item, key: string)
    requires NewestFirst(xs)
    ensures Drop(Insert(NEWER, xs, x), key)
         == if KeyOf(x) == key then Drop(xs, key) else Insert(NEWER, Drop(xs, key), x)
  {
    if xs != [] {
      var rest := xs[1..];
      if NEWER(x, xs[0]) {
        assert ([x] + xs)[1..] == xs;
        DropMembers(xs, key);
        var d := Drop(xs, key);
        if d != [] {
          assert d[0] in d;
          assert NEWER(x, d[0]);
        }
        InsertOlder(d, x);
      } else {
        InsertDrop(rest, x, key);
        var d := Drop(rest, key);
        assert Insert(NEWER, xs, x)[1..] == Insert(NEWER, rest, x);
        if KeyOf(xs[0]) == key {
          assert Drop(xs, key) == d;
        } else {
          assert Drop(xs, key) == [xs[0]] + d;
          assert ([xs[0]] + d)[1..] == d;
          assert Insert(NEWER, [xs[0]] + d, x) == [xs[0]] + Insert(NEWER, d, x);
        }
      }
    }
  }

  /** A stable sort commutes with dropping a key. */
  lemma {:induction false} SortDrop(xs: seq<Item>, key: string)
    ensures Sort(NEWER, Drop(xs, key)) == Drop(Sort(NEWER, xs), key)
  {
    hide Insert;
    if xs != [] {
      var front, x := xs[..|xs| - 1], xs[|xs| - 1];
      assert xs == front + [x];
      SortDrop(front, key);
      SortNewest(front);
      InsertDrop(Sort(NEWER, front), x, key);
      DropAppend(front, [x], key);
      if KeyOf(x) == key {
        assert Drop(xs, key) == Drop(front, key);
      } else {
        assert Drop(xs, key) == Drop(front, key) + [x];
        assert (Drop(front, key) + [x])[..|Drop(front, key)|] == Drop(front, key);
      }
    }
  }

  // ---------------------------------------------------------------------------
  // One line per key, the newest of its group
  // ---------------------------------------------------------------------------

  ghost predicate DistinctKeys(xs: seq<Item>) {
    forall i, j :: 0 <= i < j < |xs| ==> KeyOf(xs[i]) != KeyOf(xs[j])
  }

  lemma {:induction false} KeysDistinct(items: seq<Item>)
    ensures Distinct(Keys(items))
    ensures forall i :: i in items ==> KeyOf(i) in Keys(items)
    ensures forall key :: key in Keys(items) ==> exists i :: i in items && KeyOf(i) == key
  {
    if items != [] {
      KeysDistinct(items[..|items| - 1]);
      assert items == items[..|items| - 1] + [items[|items| - 1]];
    }
  }

  /** The winner is an item of its key, and no item of the key is newer. */
  lemma WinnerIsNewest(items: seq<Item>, key: string)
    requires key in Keys(items)
    ensures var w := Winner(items, key);
      w in items && KeyOf(w) == key && forall i :: i in items && KeyOf(i) == key ==> i.createdAt <= w.createdAt
  {
    GroupMembers(items, key);
    SortNewest(Group(items, key));
    SortPermutes(NEWER, Group(items, key));
    var sorted := Sort(NEWER, Group(items, key));
    forall i | i in items && KeyOf(i) == key
      ensures i.createdAt <= sorted[0].createdAt
    {
      assert i in sorted;
    }
  }

  lemma {:induction false} DistinctInserted(xs: seq<Item>, x: Item)
    requires DistinctKeys(xs) && forall y :: y in xs ==> KeyOf(y) != KeyOf(x)
    requires NewestFirst(xs)
    ensures DistinctKeys(Insert(NEWER, xs, x))
  {
    if xs != [] && !NEWER(x, xs[0]) {
      assert xs == [xs[0]] + xs[1..];
      DistinctInserted(xs[1..], x);
      InsertMembers(xs[1..], x);
      var tail := Insert(NEWER, xs[1..], x);
      forall i | 0 <= i < |tail|
        ensures KeyOf(tail[i]) != KeyOf(xs[0])
      {
        assert tail[i] in tail;
      }
    }
  }

  lemma {:induction false} DistinctSorted(xs: seq<Item>)
    requires DistinctKeys(xs)
    ensures DistinctKeys(Sort(NEWER, xs))
  {
    hide Insert;
    if xs != [] {
      var front, x := xs[..|xs| - 1], xs[|xs| - 1];
      DistinctSorted(front);
      SortNewest(front);
      DistinctInserted(Sort(NEWER, front), x);
    }
  }

  lemma WinnersMembers(items: seq<Item>)
    ensures forall w :: w in Winners(items, Keys(items)) <==> KeyOf(w) in Keys(items) && w == Winner(items, KeyOf(w))
    ensures DistinctKeys(Winners(items, Keys(items)))
  {
    hide Winner;
    var keys := Keys(items);
    KeysDistinct(items);
    var ws := Winners(items, keys);
    forall i | 0 <= i < |ws|
      ensures ws[i] == Winner(items, keys[i]) && KeyOf(ws[i]) == keys[i]
    {
      WinnerIsNewest(items, keys[i]);
    }
    forall w | KeyOf(w) in keys && w == Winner(items, KeyOf(w))
      ensures w in ws
    {
      var i :| 0 <= i < |keys| && keys[i] == KeyOf(w);
      assert ws[i] == w;
    }
  }

  /** Exactly one line per live key, the newest of its group, newest lines first. */
  lemma OneLinePerKey(items: seq<Item>)
    ensures var r := Deduplicated(items);
      && NewestFirst(r) && DistinctKeys(r)
      && (forall w :: w in r ==> w in items && !w.archived)
      && (forall i :: i in items && !i.archived ==>
          exists w :: w in r && KeyOf(w) == KeyOf(i) && i.createdAt <= w.createdAt)
  {
    hide Winner, Winners, Keys, Sort;
    var active := Active(items);
    ActiveMembers(items);
    KeysDistinct(active);
    WinnersMembers(active);
    SortNewest(Winners(active, Keys(active)));
    DistinctSorted(Winners(active, Keys(active)));
    forall w | w in Deduplicated(items)
      ensures w in items && !w.archived
    {
      WinnerIsNewest(active, KeyOf(w));
    }
    forall i | i in items && !i.archived
      ensures exists w :: w in Deduplicated(items) && KeyOf(w) == KeyOf(i) && i.createdAt <= w.createdAt
    {
      WinnerIsNewest(active, KeyOf(i));
      assert Winner(active, KeyOf(i)) in Deduplicated(items);
    }
  }

  lemma {:induction false} ActiveMembers(items: seq<Item>)
    ensures forall i :: i in Active(items) <==> i in items && !i.archived
  {
    if items != [] {
      ActiveMembers(items[..|items| - 1]);
      assert items == items[..|items| - 1] + [items[|items| - 1]];
    }
  }

  // ---------------------------------------------------------------------------
  // Idempotence
  // ---------------------------------------------------------------------------

  lemma {:induction false} AllActive(items: seq<Item>)
    requires forall i :: i in items ==> !i.archived
    ensures Active(items) == items
  {
    if items != [] {
      var front, last := items[..|items| - 1], items[|items| - 1];
      assert items == front + [last] && last in items;
      AllActive(front);
    }
  }

  function KeysInOrder(xs: seq<Item>): (r: seq<string>)
    ensures |r| == |xs|
  {
    seq(|xs|, i requires 0 <= i < |xs| => KeyOf(xs[i]))
  }

  lemma {:induction false} DistinctGroups(xs: seq<Item>)
    requires DistinctKeys(xs)
    ensures Keys(xs) == KeysInOrder(xs)
    ensures forall i :: 0 <= i < |xs| ==> Group(xs, KeyOf(xs[i])) == [xs[i]]
  {
    if xs != [] {
      var front, x := xs[..|xs| - 1], xs[|xs| - 1];
      DistinctGroups(front);
      assert KeysInOrder(xs) == KeysInOrder(front) + [KeyOf(x)];
      var same := Group(front, KeyOf(x));
      assert same != [] ==> same[0] in same;
      GroupMembers(front, KeyOf(x));
    }
  }

  lemma DistinctWinners(xs: seq<Item>)
    requires DistinctKeys(xs)
    ensures Winners(xs, Keys(xs)) == xs
  {
    DistinctGroups(xs);
    forall i | 0 <= i < |xs|
      ensures Winner(xs, Keys(xs)[i]) == xs[i]
    {
      SortSorted([xs[i]]);
    }
  }

  lemma DeduplicateTwice(items: seq<Item>)
    ensures Deduplicated(Deduplicated(items)) == Deduplicated(items)
  {
    var r := Deduplicated(items);
    OneLinePerKey(items);
    AllActive(r);
    DistinctWinners(r);
    SortSorted(r);
  }

  // ---------------------------------------------------------------------------
  // The optimistic archive
  // ---------------------------------------------------------------------------

  /** `prev.find(i => i.id === id)?.issue_id` */
  function TargetIssue(items: seq<Item>, id: string): Option<string> {
    if items == [] then None
    else if items[0].id == id then items[0].issueId
    else TargetIssue(items[1..], id)
  }

  predicate Hit(i: Item, id: string, issue: Option<string>) {
    i.id == id || (issue.Some? && issue.value != "" && i.issueId == issue)
  }

  function ArchiveWhere(items: seq<Item>, id: string, issue: Option<string>): seq<Item> {
    if items == [] then []
    else
      var i := items[|items| - 1];
      ArchiveWhere(items[..|items| - 1], id, issue) + [if Hit(i, id, issue) then i.(archived := true) else i]
  }

  function Archived(items: seq<Item>, id: string): seq<Item> {
    ArchiveWhere(items, id, TargetIssue(items, id))
  }

  /** Live items become read, archived ones stay as they are, and no item moves. */
  ghost predicate AllRead(before: seq<Item>, after: seq<Item>) {
    && |after| == |before|
    && (forall i :: 0 <= i < |before| && before[i].archived ==> after[i] == before[i])
    && (forall i :: 0 <= i < |before| && !before[i].archived ==> after[i] == before[i].(read := true))
  }

  class InboxCache {
    var list: Option<seq<Item>>

    constructor (items: Option<seq<Item>>)
      ensures list == items
    {
      list := items;
    }

    /** Returns the snapshot that onError writes back. */
    method ArchiveOnMutate(id: string) returns (prev: Option<seq<Item>>)
      modifies this
      ensures prev == old(list)
      ensures list == if prev.Some? then Some(Archived(prev.value, id)) else None
    {
      prev := list;
      if prev.Some? {
        var issue := TargetIssue(prev.value, id);
        var next: seq<Item> := [];
        for i := 0 to |prev.value|
          invariant next == ArchiveWhere(prev.value[..i], id, issue)
        {
          var item := prev.value[i];
          assert prev.value[..i + 1][..i] == prev.value[..i];
          next := next + [if Hit(item, id, issue) then item.(archived := true) else item];
        }
        assert prev.value[..|prev.value|] == prev.value;
        list := Some(next);
      }
    }

    method MarkAllReadOnMutate() returns (prev: Option<seq<Item>>)
      modifies this
      ensures prev == old(list)
      ensures list.Some? <==> prev.Some?
      ensures prev.Some? ==> AllRead(prev.value, list.value)
    {
      prev := list;
      if prev.Some? {
        var next: seq<Item> := [];
        for i := 0 to |prev.value|
          invariant AllRead(prev.value[..i], next)
        {
          var item := prev.value[i];
          next := next + [if !item.archived then item.(read := true) else item];
        }
        list := Some(next);
      }
    }

    method OnError(prev: Option<seq<Item>>)
      modifies this
      ensures prev.Some? ==> list == prev
      ensures prev.None? ==> list == old(list)
    {
      if prev.Some? {
        list := prev;
      }
    }
  }

  lemma {:induction false} ActiveAfterArchive(items: seq<Item>, id: string, issue: Option<string>, key: string)
    requires forall i :: i in items && !i.archived ==> (Hit(i, id, issue) <==> KeyOf(i) == key)
    ensures Active(ArchiveWhere(items, id, issue)) == Drop(Active(items), key)
  {
    hide Hit;
    if items != [] {
      var front, i := items[..|items| - 1], items[|items| - 1];
      assert items == front + [i];
      ActiveAfterArchive(front, id, issue, key);
      var next := ArchiveWhere(items, id, issue);
      assert next[..|next| - 1] == ArchiveWhere(front, id, issue);
      DropAppend(Active(front), [i], key);
      assert Active(front) + [] == Active(front);
    }
  }

  lemma {:induction false} KeysAfterDrop(items: seq<Item>, key: string)
    ensures forall k :: k != key ==> Group(Drop(items, key), k) == Group(items, k)
    ensures Keys(Drop(items, key)) == Without(Keys(items), key)
  {
    if items != [] {
      var front, x := items[..|items| - 1], items[|items| - 1];
      assert items == front + [x];
      KeysAfterDrop(front, key);
      DropAppend(front, [x], key);
      var d := Drop(front, key);
      assert Drop(items, key) == if KeyOf(x) == key then d else d + [x];
      assert (d + [x])[..|d|] == d;
      WithoutSnoc(Keys(front), KeyOf(x), key);
      WithoutIn(Keys(front), KeyOf(x), key);
    }
  }

  lemma WinnersCons(items: seq<Item>, k: string, keys: seq<string>)
    requires k in Keys(items) && forall key :: key in keys ==> key in Keys(items)
    ensures forall key :: key in [k] + keys ==> key in Keys(items)
    ensures Winners(items, [k] + keys) == [Winner(items, k)] + Winners(items, keys)
  {
    hide Winner, Keys;
  }

  lemma DropCons(x: Item, xs: seq<Item>, key: string)
    ensures Drop([x] + xs, key) == (if KeyOf(x) == key then [] else [x]) + Drop(xs, key)
  {
    assert ([x] + xs)[1..] == xs;
  }

  lemma {:induction false} WinnersAfterDrop(items: seq<Item>, key: string, keys: seq<string>)
    requires forall k :: k in keys ==> k in Keys(items)
    requires forall k :: k in Without(keys, key) ==> k in Keys(Drop(items, key))
    ensures Winners(Drop(items, key), Without(keys, key)) == Drop(Winners(items, keys), key)
  {
    hide Winner, Keys, Winners, KeyOf, Drop;
    if keys == [] {
      NoWinners(items, key);
    } else {
      var rest := keys[1..];
      assert keys == [keys[0]] + rest;
      assert Without(keys, key) == (if keys[0] == key then [] else [keys[0]]) + Without(rest, key);
      WinnersAfterDrop(items, key, rest);
      WinnersCons(items, keys[0], rest);
      WinnerIsNewest(items, keys[0]);
      DropCons(Winner(items, keys[0]), Winners(items, rest), key);
      if keys[0] != key {
        SameWinner(items, key, keys[0]);
        WinnersCons(Drop(items, key), keys[0], Without(rest, key));
      } else {
        assert Without(keys, key) == Without(rest, key);
        assert [] + Drop(Winners(items, rest), key) == Drop(Winners(items, rest), key);
      }
    }
  }

  lemma NoWinners(items: seq<Item>, key: string)
    ensures Winners(items, []) == [] && Winners(Drop(items, key), []) == [] && Drop([], key) == []
  {
  }

  lemma SameWinner(items: seq<Item>, key: string, k: string)
    requires k != key && k in Keys(items) && k in Keys(Drop(items, key))
    ensures Winner(Drop(items, key), k) == Winner(items, k)
  {
    KeysAfterDrop(items, key);
  }

  lemma DeduplicatedWithoutKey(active: seq<Item>, key: string)
    ensures Sort(NEWER, Winners(Drop(active, key), Keys(Drop(active, key))))
         == Drop(Sort(NEWER, Winners(active, Keys(active))), key)
  {
    hide Winners, Sort, Keys;
    KeysAfterDrop(active, key);
    WinnersAfterDrop(active, key, Keys(active));
    SortDrop(Winners(active, Keys(active)), key);
  }

  ghost predicate UniqueItemIds(items: seq<Item>) {
    forall a, b :: a in items && b in items && a.id == b.id ==> a == b
  }

  lemma {:induction false} TargetIs(items: seq<Item>, target: Item)
    requires UniqueItemIds(items) && target in items
    ensures TargetIssue(items, target.id) == target.issueId
  {
    if items[0].id == target.id {
      assert items[0] in items;
    } else {
      assert items == [items[0]] + items[1..];
      TargetIs(items[1..], target);
    }
  }

  /** Archiving a line and deduplicating gives the deduplicated list without just that line, if and
      only if every live item with the line's key is archived with it. */
  lemma ArchiveCommutesIff(items: seq<Item>, target: Item)
    requires UniqueItemIds(items) && target in items
    ensures Deduplicated(Archived(items, target.id)) == Drop(Deduplicated(items), KeyOf(target))
       <==> forall i :: i in items && !i.archived && KeyOf(i) == KeyOf(target) ==> Hit(i, target.id, target.issueId)
  {
    hide Winners, Sort, Keys, Active;
    var key := KeyOf(target);
    TargetIs(items, target);
    if forall i :: i in items && !i.archived && KeyOf(i) == key ==> Hit(i, target.id, target.issueId) {
      ActiveAfterArchive(items, target.id, target.issueId, key);
      DeduplicatedWithoutKey(Active(items), key);
    } else {
      var i :| i in items && !i.archived && KeyOf(i) == key && !Hit(i, target.id, target.issueId);
      var next := Archived(items, target.id);
      StillListed(items, target.id, target.issueId, i);
      OneLinePerKey(next);
      var w :| w in Deduplicated(next) && KeyOf(w) == key;
      DropMembers(Deduplicated(items), key);
    }
  }

  lemma {:induction false} StillListed(items: seq<Item>, id: string, issue: Option<string>, i: Item)
    requires i in items && !Hit(i, id, issue)
    ensures i in ArchiveWhere(items, id, issue)
  {
    var front, last := items[..|items| - 1], items[|items| - 1];
    assert items == front + [last];
    if i in front {
      StillListed(front, id, issue, i);
    }
  }

  /** With non-empty issue ids that are no item's id, archiving always removes exactly one line. */
  lemma ArchiveRemovesOneLine(items: seq<Item>, target: Item)
    requires UniqueItemIds(items) && target in items
    requires forall i, j :: i in items && j in items && i.issueId.Some? ==>
        i.issueId.value != "" && i.issueId.value != j.id
    ensures Deduplicated(Archived(items, target.id)) == Drop(Deduplicated(items), KeyOf(target))
  {
    ArchiveCommutesIff(items, target);
  }

  // ---------------------------------------------------------------------------
  // Unread count
  // ---------------------------------------------------------------------------

  function Unread(xs: seq<Item>): nat {
    if xs == [] then 0 else (if xs[0].read then 0 else 1) + Unread(xs[1..])
  }

  function UnreadCount(items: seq<Item>): nat {
    Unread(Deduplicated(items))
  }

  lemma {:induction false} AllReadCount(xs: seq<Item>)
    requires forall x :: x in xs ==> x.read
    ensures Unread(xs) == 0
  {
    if xs != [] {
      assert xs[0] in xs;
      AllReadCount(xs[1..]);
    }
  }

  /** Marking all read leaves nothing unread. */
  lemma MarkAllReadClearsCount(before: seq<Item>, after: seq<Item>)
    requires AllRead(before, after)
    ensures UnreadCount(after) == 0
  {
    hide Deduplicated;
    assert forall i :: i in after ==> i.archived || i.read;
    OneLinePerKey(after);
    AllReadCount(Deduplicated(after));
  }
}
