/** What the deduplicated inbox shows, item by item, and what archiving marks
    (packages/core/inbox/queries.ts, packages/core/inbox/mutations.ts). */
module InboxLines {
  import opened Text
  import opened SortedAppend
  import opened Inbox

  /** A line's subject: the issue, or the item itself where there is none. */
  predicate IsAbout(i: Item, key: string) {
    i.issueId == Some(key) || (i.issueId == None && i.id == key)
  }

  lemma KeyIsSubject(i: Item, key: string)
    ensures KeyOf(i) == key <==> IsAbout(i, key)
  {
  }

  predicate LiveAbout(i: Item, key: string) {
    !i.archived && IsAbout(i, key)
  }

  // ---------------------------------------------------------------------------
  // Which item of a group is shown
  // ---------------------------------------------------------------------------

  /** Position k holds the newest live item of the subject, the first of several equally new ones. */
  predicate FirstNewest(items: seq<Item>, key: string, k: nat) {
    && k < |items| && LiveAbout(items[k], key)
    && (forall j :: 0 <= j < |items| && LiveAbout(items[j], key) ==>
          if j < k then items[j].createdAt < items[k].createdAt else items[j].createdAt <= items[k].createdAt)
  }

  lemma ActiveSnoc(items: seq<Item>, i: Item)
    ensures Active(items + [i]) == Active(items) + if i.archived then [] else [i]
  {
    assert (items + [i])[..|items|] == items;
  }

  lemma GroupSnoc(items: seq<Item>, i: Item, key: string)
    ensures Group(items + [i], key) == Group(items, key) + if KeyOf(i) == key then [i] else []
  {
    assert (items + [i])[..|items|] == items;
  }

  lemma SortSnocHead(xs: seq<Item>, x: Item)
    ensures Sort(NEWER, xs + [x]) != []
    ensures Sort(NEWER, xs + [x])[0]
         == if xs == [] || x.createdAt > Sort(NEWER, xs)[0].createdAt then x else Sort(NEWER, xs)[0]
  {
    SortPermutes(NEWER, xs);
    assert (xs + [x])[..|xs|] == xs;
  }

  /** The head of a subject's sorted group is its first newest live item. */
  lemma {:induction false} HeadIsFirstNewest(items: seq<Item>, key: string) returns (k: nat)
    ensures var group := Group(Active(items), key);
            && |Sort(NEWER, group)| == |group|
            && (group != [] ==> FirstNewest(items, key, k) && Sort(NEWER, group)[0] == items[k])
    ensures Group(Active(items), key) == [] <==> forall j :: 0 <= j < |items| ==> !LiveAbout(items[j], key)
  {
    hide Active, Group, Sort, KeyOf;
    k := 0;
    if items == [] {
      NothingLive(key);
    } else {
      var front, last := items[..|items| - 1], items[|items| - 1];
      assert items == front + [last];
      k := HeadIsFirstNewest(front, key);
      ActiveSnoc(front, last);
      KeyIsSubject(last, key);
      assert forall j :: 0 <= j < |front| ==> front[j] == items[j];
      if LiveAbout(last, key) {
        GroupSnoc(Active(front), last, key);
        SortSnocHead(Group(Active(front), key), last);
        SortPermutes(NEWER, Group(Active(items), key));
        if Sort(NEWER, Group(Active(items), key))[0] == last && !(Group(Active(front), key) != []
            && last.createdAt <= items[k].createdAt) {
          k := |front|;
        }
      } else if !last.archived {
        GroupSnoc(Active(front), last, key);
        assert Group(Active(front), key) + [] == Group(Active(front), key);
      } else {
        assert Active(front) + [] == Active(front);
      }
    }
  }

  lemma NothingLive(key: string)
    ensures Group(Active([]), key) == [] && Sort(NEWER, []) == []
  {
  }

  /** The inbox shows exactly the first newest live item of each subject. */
  lemma LinesAreFirstNewest(items: seq<Item>, w: Item)
    ensures w in Deduplicated(items) <==> exists key, k: nat :: FirstNewest(items, key, k) && w == items[k]
  {
    hide Sort, Winner, Group, Keys, Active, Winners, KeyOf;
    var active := Active(items);
    WinnersMembers(active);
    SortNewest(Winners(active, Keys(active)));
    if w in Deduplicated(items) {
      var k := LineAt(items, KeyOf(w));
    }
    if key, k: nat :| FirstNewest(items, key, k) && w == items[k] {
      var m := LineAt(items, key);
      OneFirstNewest(items, key, k, m);
      KeyIsSubject(w, key);
    }
  }

  lemma LineAt(items: seq<Item>, key: string) returns (k: nat)
    ensures key in Keys(Active(items)) <==> exists j :: 0 <= j < |items| && LiveAbout(items[j], key)
    ensures key in Keys(Active(items)) ==> FirstNewest(items, key, k) && Winner(Active(items), key) == items[k]
  {
    hide Sort, Group, Keys, Active;
    k := HeadIsFirstNewest(items, key);
    GroupMembers(Active(items), key);
  }

  lemma OneFirstNewest(items: seq<Item>, key: string, k: nat, m: nat)
    requires FirstNewest(items, key, k) && FirstNewest(items, key, m)
    ensures k == m
  {
    hide LiveAbout;
    assert items[k].createdAt <= items[m].createdAt && items[m].createdAt <= items[k].createdAt;
  }

  // ---------------------------------------------------------------------------
  // The order of equally new lines
  // ---------------------------------------------------------------------------

  /** Insertion puts the item behind everything at least as new, in front of everything older. */
  lemma {:induction false} InsertedAt(xs: seq<Item>, x: Item) returns (p: nat)
    requires NewestFirst(xs)
    ensures p <= |xs| && Insert(NEWER, xs, x) == xs[..p] + [x] + xs[p..]
    ensures forall q :: p <= q < |xs| ==> xs[q].createdAt < x.createdAt
  {
    if xs == [] || NEWER(x, xs[0]) {
      p := 0;
    } else {
      p := InsertedAt(xs[1..], x);
      assert xs == [xs[0]] + xs[1..];
      assert xs[..p + 1] == [xs[0]] + xs[1..][..p] && xs[p + 1..] == xs[1..][p..];
      p := p + 1;
    }
  }

  /** The sort is stable: equally new items stay in the order they had. */
  lemma {:induction false} SortIsStable(xs: seq<Item>, i: nat, j: nat) returns (a: nat, b: nat)
    requires |Sort(NEWER, xs)| == |xs| && i < j < |xs|
    requires Sort(NEWER, xs)[i].createdAt == Sort(NEWER, xs)[j].createdAt
    ensures a < b < |xs| && xs[a] == Sort(NEWER, xs)[i] && xs[b] == Sort(NEWER, xs)[j]
  {
    var n := |xs| - 1;
    var front, x := xs[..n], xs[n];
    var before, after := Sort(NEWER, front), Sort(NEWER, xs);
    assert xs == front + [x];
    SortNewest(front);
    SortPermutes(NEWER, front);
    SortSnoc(front, x);
    hide Sort, Insert, NewestFirst;
    var k, l := InsertIsStable(before, x, i, j);
    if l == |before| {
      assert before[k] in before;
      assert before[k] in front;
      a :| 0 <= a < n && front[a] == before[k];
      b := n;
    } else {
      a, b := SortIsStable(front, k, l);
    }
  }

  /** Where equally new items of a list with one insertion come from; |xs| stands for the inserted item. */
  lemma InsertIsStable(xs: seq<Item>, x: Item, i: nat, j: nat) returns (k: nat, l: nat)
    requires NewestFirst(xs) && i < j < |Insert(NEWER, xs, x)| == |xs| + 1
    requires Insert(NEWER, xs, x)[i].createdAt == Insert(NEWER, xs, x)[j].createdAt
    ensures k < l <= |xs| && Insert(NEWER, xs, x)[i] == xs[k]
    ensures Insert(NEWER, xs, x)[j] == if l == |xs| then x else xs[l]
  {
    hide Insert, NewestFirst;
    var p := InsertedAt(xs, x);
    var after := Insert(NEWER, xs, x);
    assert after[p] == x;
    assert j > p ==> after[j] == xs[j - 1];
    assert i < p ==> after[i] == xs[i];
    assert i > p ==> after[i] == xs[i - 1];
    assert j < p ==> after[j] == xs[j];
    k := if i < p then i else i - 1;
    l := if j < p then j else if j == p then |xs| else j - 1;
  }

  lemma SortSnoc(xs: seq<Item>, x: Item)
    ensures Sort(NEWER, xs + [x]) == Insert(NEWER, Sort(NEWER, xs), x)
  {
    assert (xs + [x])[..|xs|] == xs;
  }

  /** Some live item about `early` comes before every live item about `late`. */
  ghost predicate ComesFirst(items: seq<Item>, early: string, late: string) {
    exists p :: 0 <= p < |items| && LiveAbout(items[p], early)
                && forall q :: 0 <= q <= p ==> !LiveAbout(items[q], late)
  }

  lemma {:induction false} KeysByFirstItem(items: seq<Item>, a: nat, b: nat)
    requires a < b < |Keys(Active(items))|
    ensures ComesFirst(items, Keys(Active(items))[a], Keys(Active(items))[b])
  {
    var n := |items| - 1;
    assert items != [];
    var front, last := items[..n], items[n];
    assert items == front + [last];
    ActiveSnoc(front, last);
    var before, keys := Keys(Active(front)), Keys(Active(items));
    KeyIsSubject(last, KeyOf(last));
    if last.archived {
      assert Active(front) + [] == Active(front);
    } else {
      KeysSnoc(Active(front), last);
    }
    hide Active, Keys, KeyOf, ComesFirst;
    if b < |before| {
      KeysByFirstItem(front, a, b);
      FirstInFront(front, last, keys[a], keys[b]);
    } else {
      var k := LineAt(front, before[a]);
      k := LineAt(front, keys[b]);
      LastIsLate(front, last, keys[a], keys[b]);
    }
  }

  lemma FirstInFront(front: seq<Item>, last: Item, early: string, late: string)
    requires ComesFirst(front, early, late)
    ensures ComesFirst(front + [last], early, late)
  {
    hide LiveAbout;
    var items := front + [last];
    var p :| 0 <= p < |front| && LiveAbout(front[p], early) && forall q :: 0 <= q <= p ==> !LiveAbout(front[q], late);
    assert LiveAbout(items[p], early);
    assert forall q :: 0 <= q <= p ==> items[q] == front[q];
  }

  lemma LastIsLate(front: seq<Item>, last: Item, early: string, late: string)
    requires exists j :: 0 <= j < |front| && LiveAbout(front[j], early)
    requires forall j :: 0 <= j < |front| ==> !LiveAbout(front[j], late)
    ensures ComesFirst(front + [last], early, late)
  {
    hide LiveAbout;
    var items := front + [last];
    var p :| 0 <= p < |front| && LiveAbout(front[p], early);
    assert LiveAbout(items[p], early);
    assert forall q :: 0 <= q <= p ==> items[q] == front[q];
  }

  lemma KeysSnoc(xs: seq<Item>, x: Item)
    ensures Keys(xs + [x]) == if KeyOf(x) in Keys(xs) then Keys(xs) else Keys(xs) + [KeyOf(x)]
  {
    assert (xs + [x])[..|xs|] == xs;
  }

  /** Equally new lines stand in the order in which their subjects first appear in the list. */
  lemma TiesByFirstItem(items: seq<Item>, i: nat, j: nat, early: string, late: string)
    requires i < j < |Deduplicated(items)|
    requires Deduplicated(items)[i].createdAt == Deduplicated(items)[j].createdAt
    requires IsAbout(Deduplicated(items)[i], early) && IsAbout(Deduplicated(items)[j], late)
    ensures ComesFirst(items, early, late)
  {
    hide Sort, Winner, Group, Active, Keys, KeyOf, ComesFirst, IsAbout;
    var active := Active(items);
    var keys := Keys(active);
    var ws := Winners(active, keys);
    SortPermutes(NEWER, ws);
    var a, b := SortIsStable(ws, i, j);
    WinnerIsNewest(active, keys[a]);
    WinnerIsNewest(active, keys[b]);
    KeyIsSubject(ws[a], early);
    KeyIsSubject(ws[b], late);
    KeysByFirstItem(items, a, b);
  }

  // ---------------------------------------------------------------------------
  // Archiving and counting
  // ---------------------------------------------------------------------------

  lemma {:induction false} ArchivedAt(items: seq<Item>, id: string, issue: Option<string>)
    ensures |ArchiveWhere(items, id, issue)| == |items|
    ensures forall k :: 0 <= k < |items| ==>
              var i := items[k];
              ArchiveWhere(items, id, issue)[k] == if Hit(i, id, issue) then i.(archived := true) else i
  {
    hide Hit;
    if items != [] {
      ArchivedAt(items[..|items| - 1], id, issue);
    }
  }

  /** Archiving marks, in place, the item itself and, when the first item of that id has a non-empty issue,
      every item of that issue; it changes nothing else. */
  lemma ArchiveMarks(items: seq<Item>, id: string, k: nat, first: nat)
    requires k < |items|
    ensures |Archived(items, id)| == |items|
    ensures first < |items| && items[first].id == id && (forall j :: 0 <= j < first ==> items[j].id != id) ==>
              var issue := items[first].issueId;
              var hit := items[k].id == id || (issue.Some? && issue.value != "" && items[k].issueId == issue);
              Archived(items, id)[k] == if hit then items[k].(archived := true) else items[k]
    ensures (forall j :: 0 <= j < |items| ==> items[j].id != id) ==> Archived(items, id)[k] == items[k]
  {
    ArchivedAt(items, id, TargetIssue(items, id));
    TargetIssueIs(items, id, first);
  }

  lemma {:induction false} TargetIssueIs(items: seq<Item>, id: string, first: nat)
    ensures first < |items| && items[first].id == id && (forall j :: 0 <= j < first ==> items[j].id != id) ==>
              TargetIssue(items, id) == items[first].issueId
    ensures (forall j :: 0 <= j < |items| ==> items[j].id != id) ==> TargetIssue(items, id) == None
  {
    if items != [] && items[0].id != id {
      if first > 0 {
        TargetIssueIs(items[1..], id, first - 1);
      } else {
        TargetIssueIs(items[1..], id, |items|);
      }
    }
  }

  lemma {:induction false} UnreadAre(xs: seq<Item>)
    ensures Unread(xs) == |set k: nat | k < |xs| && !xs[k].read|
  {
    if xs != [] {
      UnreadAre(xs[1..]);
      var rest := set k: nat | k < |xs[1..]| && !xs[1..][k].read;
      Shifted(xs, rest);
    }
  }

  lemma Shifted(xs: seq<Item>, rest: set<nat>)
    requires xs != [] && rest == set k: nat | k < |xs[1..]| && !xs[1..][k].read
    ensures |set k: nat | k < |xs| && !xs[k].read| == |rest| + if xs[0].read then 0 else 1
  {
    var moved := set k | k in rest :: k + 1;
    ShiftedSize(rest, moved);
    var all := set k: nat | k < |xs| && !xs[k].read;
    forall k | k in all && k > 0
      ensures k in moved
    {
      assert k - 1 in rest;
    }
    assert all == moved + if xs[0].read then {} else {0};
  }

  lemma {:induction false} ShiftedSize(a: set<nat>, b: set<nat>)
    requires b == set k | k in a :: k + 1
    ensures |b| == |a|
  {
    if a != {} {
      var x :| x in a;
      var rest: set<nat> := set k | k in a - {x} :: k + 1;
      ShiftedSize(a - {x}, rest);
      forall k | k in b
        ensures k in rest + {x + 1}
      {
        var l :| l in a && l + 1 == k;
        if l != x {
          assert l in a - {x} && l + 1 in rest;
        }
      }
      assert b == rest + {x + 1} && x + 1 !in rest;
    }
  }

  /** The badge counts the lines that are not read. */
  lemma BadgeCountsLines(items: seq<Item>)
    ensures UnreadCount(items) == |set k: nat | k < |Deduplicated(items)| && !Deduplicated(items)[k].read|
  {
    hide Deduplicated;
    UnreadAre(Deduplicated(items));
  }
}
