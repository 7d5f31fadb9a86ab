/** When the breadth-first replies of a row are in chronological order (apps/mobile/lib/timeline-thread.ts). */
module ThreadOrder {
  import opened Text
  import opened Sequences
  import opened Timeline
  import opened TimelineThread

  /** The entries of a row's replies, in input order. */
  function InOrder(es: seq<Entry>, chosen: seq<Entry>): seq<Entry> {
    if es == [] then []
    else InOrder(es[..|es| - 1], chosen) + if es[|es| - 1] in chosen then [es[|es| - 1]] else []
  }

  /** The place of an id in a list that holds it. */
  function Place(ids: seq<string>, id: string): nat {
    if ids == [] then 0
    else if id in ids[..|ids| - 1] then Place(ids[..|ids| - 1], id)
    else |ids| - 1
  }

  function Parent(e: Entry): string {
    if e.parentId.Some? then e.parentId.value else ""
  }

  /** All entries reply to some of these ids. */
  ghost predicate RepliesTo(ids: seq<string>, xs: seq<Entry>) {
    forall x :: x in xs ==> HasParent(x) && Parent(x) in ids
  }

  /** No entry answers an earlier id than some entry before it does. */
  ghost predicate ParentsInOrder(ids: seq<string>, xs: seq<Entry>)
    requires RepliesTo(ids, xs)
  {
    forall i, j :: 0 <= i < j < |xs| ==> Place(ids, Parent(xs[i])) <= Place(ids, Parent(xs[j]))
  }

  function Answering(xs: seq<Entry>, id: string): seq<Entry>
  {
    if xs == [] then []
    else
      var last := xs[|xs| - 1];
      Answering(xs[..|xs| - 1], id) + if Parent(last) == id then [last] else []
  }

  function Grouped(xs: seq<Entry>, ids: seq<string>): seq<Entry>
  {
    if ids == [] then [] else Grouped(xs, ids[..|ids| - 1]) + Answering(xs, ids[|ids| - 1])
  }

  // ---------------------------------------------------------------------------
  // Grouping by parent and the order of the parents
  // ---------------------------------------------------------------------------

  lemma {:induction false} PlaceBelow(ids: seq<string>, id: string)
    requires id in ids
    ensures Place(ids, id) < |ids|
    ensures Place(ids, id) == |ids| - 1 <==> id !in ids[..|ids| - 1]
  {
    if id in ids[..|ids| - 1] {
      PlaceBelow(ids[..|ids| - 1], id);
    }
  }

  lemma {:induction false} KidsOfParents(es: seq<Entry>, ids: set<string>, parents: seq<string>)
    ensures RepliesTo(parents, KidsOf(es, ids, parents))
  {
    forall x | x in KidsOf(es, ids, parents)
      ensures HasParent(x) && Parent(x) in parents
    {
      KidsOfMembers(es, ids, parents, x);
    }
  }

  /** Replies collected parent by parent have their parents in order. */
  lemma {:induction false} KidsOfInOrder(es: seq<Entry>, ids: set<string>, parents: seq<string>)
    requires Distinct(parents)
    ensures RepliesTo(parents, KidsOf(es, ids, parents)) && ParentsInOrder(parents, KidsOf(es, ids, parents))
  {
    hide Place;
    KidsOfParents(es, ids, parents);
    if parents != [] {
      var front, last := parents[..|parents| - 1], parents[|parents| - 1];
      KidsOfInOrder(es, ids, front);
      var xs, kids := KidsOf(es, ids, front), Kids(es, ids, last);
      forall x | x in kids
        ensures HasParent(x) && Parent(x) == last
      {
        KidsMembers(es, ids, last, x);
      }
      assert last !in front;
      PlacesGrow(front, last);
      hide Kids, KidsOf;
      assert parents == front + [last];
      JoinInOrder(front, last, xs, kids);
    }
  }

  lemma PlacesGrow(front: seq<string>, last: string)
    requires last !in front
    ensures forall id :: id in front ==> Place(front + [last], id) == Place(front, id)
    ensures Place(front + [last], last) == |front|
  {
    assert (front + [last])[..|front|] == front;
  }

  lemma JoinInOrder(front: seq<string>, last: string, xs: seq<Entry>, kids: seq<Entry>)
    requires last !in front && RepliesTo(front, xs) && ParentsInOrder(front, xs)
    requires forall x :: x in kids ==> HasParent(x) && Parent(x) == last
    ensures RepliesTo(front + [last], xs + kids) && ParentsInOrder(front + [last], xs + kids)
  {
    hide Place;
    PlacesGrow(front, last);
    var all := xs + kids;
    forall i, j | 0 <= i < j < |all|
      ensures Place(front + [last], Parent(all[i])) <= Place(front + [last], Parent(all[j]))
    {
      assert all[i] in all && all[j] in all;
      if j < |xs| {
        assert xs[i] in xs && xs[j] in xs;
      } else {
        assert kids[j - |xs|] in kids;
        if i < |xs| {
          assert xs[i] in xs;
          PlaceBelow(front, Parent(xs[i]));
        } else {
          assert kids[i - |xs|] in kids;
        }
      }
    }
  }

  /** Where the replies to the last id begin. */
  lemma {:induction false} Cut(ids: seq<string>, xs: seq<Entry>) returns (c: nat)
    requires ids != [] && RepliesTo(ids, xs) && ParentsInOrder(ids, xs)
    ensures c <= |xs|
    ensures forall i :: 0 <= i < c ==> Parent(xs[i]) in ids[..|ids| - 1]
    ensures forall i :: c <= i < |xs| ==> Parent(xs[i]) !in ids[..|ids| - 1]
  {
    hide Place;
    c := |xs|;
    while c > 0 && Parent(xs[c - 1]) !in ids[..|ids| - 1]
      invariant c <= |xs|
      invariant forall i :: c <= i < |xs| ==> Parent(xs[i]) !in ids[..|ids| - 1]
    {
      c := c - 1;
    }
    if c > 0 {
      var last := Parent(xs[c - 1]);
      assert xs[c - 1] in xs;
      PlaceBelow(ids, last);
      forall i | 0 <= i < c
        ensures Parent(xs[i]) in ids[..|ids| - 1]
      {
        assert xs[i] in xs;
        PlaceBelow(ids, Parent(xs[i]));
      }
    }
  }

  lemma {:induction false} AnsweringAppend(a: seq<Entry>, b: seq<Entry>, id: string)
    ensures Answering(a + b, id) == Answering(a, id) + Answering(b, id)
  {
    if b == [] {
      assert a + b == a;
    } else {
      var front, last := b[..|b| - 1], b[|b| - 1];
      assert (a + b)[..|a + b| - 1] == a + front;
      AnsweringAppend(a, front, id);
    }
  }

  lemma {:induction false} AnsweringAll(xs: seq<Entry>, id: string)
    requires forall i :: 0 <= i < |xs| ==> Parent(xs[i]) == id
    ensures Answering(xs, id) == xs
  {
    hide Parent;
    if xs != [] {
      AnsweringAll(xs[..|xs| - 1], id);
      assert xs == xs[..|xs| - 1] + [xs[|xs| - 1]];
    }
  }

  lemma {:induction false} AnsweringNone(xs: seq<Entry>, id: string)
    requires forall i :: 0 <= i < |xs| ==> Parent(xs[i]) != id
    ensures Answering(xs, id) == []
  {
    hide Parent;
    if xs != [] {
      AnsweringNone(xs[..|xs| - 1], id);
    }
  }

  lemma {:induction false} GroupedDrops(a: seq<Entry>, b: seq<Entry>, ids: seq<string>)
    requires forall i :: 0 <= i < |b| ==> Parent(b[i]) !in ids
    ensures Grouped(a + b, ids) == Grouped(a, ids)
  {
    hide Answering;
    if ids != [] {
      var last := ids[|ids| - 1];
      assert last in ids;
      GroupedDrops(a, b, ids[..|ids| - 1]);
      AnsweringAppend(a, b, last);
      AnsweringNone(b, last);
      assert Answering(a, last) + [] == Answering(a, last);
    }
  }

  /** With the parents in order, grouping by parent changes nothing. */
  lemma {:induction false} GroupedSame(ids: seq<string>, xs: seq<Entry>)
    requires Distinct(ids) && RepliesTo(ids, xs) && ParentsInOrder(ids, xs)
    ensures Grouped(xs, ids) == xs
    decreases |ids|
  {
    hide Place, Answering;
    assert xs != [] ==> xs[0] in xs;
    if ids == [] {
      assert xs == [];
    } else {
      var front, last := ids[..|ids| - 1], ids[|ids| - 1];
      var c := Cut(ids, xs);
      var a, b := xs[..c], xs[c..];
      assert xs == a + b;
      PartsReply(ids, xs, c);
      assert Distinct(front);
      hide Distinct, RepliesTo, ParentsInOrder;
      GroupedSame(front, a);
      GroupedJoin(ids, a, b);
    }
  }

  lemma GroupedJoin(ids: seq<string>, a: seq<Entry>, b: seq<Entry>)
    requires ids != [] && Grouped(a, ids[..|ids| - 1]) == a
    requires forall i :: 0 <= i < |a| ==> Parent(a[i]) != ids[|ids| - 1]
    requires forall i :: 0 <= i < |b| ==> Parent(b[i]) == ids[|ids| - 1] && Parent(b[i]) !in ids[..|ids| - 1]
    ensures Grouped(a + b, ids) == a + b
  {
    hide Answering;
    var last := ids[|ids| - 1];
    GroupedDrops(a, b, ids[..|ids| - 1]);
    AnsweringAppend(a, b, last);
    AnsweringNone(a, last);
    AnsweringAll(b, last);
    assert [] + b == b;
  }

  lemma PartsReply(ids: seq<string>, xs: seq<Entry>, c: nat)
    requires ids != [] && c <= |xs| && Distinct(ids) && RepliesTo(ids, xs) && ParentsInOrder(ids, xs)
    requires forall i :: 0 <= i < c ==> Parent(xs[i]) in ids[..|ids| - 1]
    requires forall i :: c <= i < |xs| ==> Parent(xs[i]) !in ids[..|ids| - 1]
    ensures RepliesTo(ids[..|ids| - 1], xs[..c]) && ParentsInOrder(ids[..|ids| - 1], xs[..c])
    ensures forall i :: 0 <= i < c ==> Parent(xs[..c][i]) != ids[|ids| - 1]
    ensures forall i :: 0 <= i < |xs| - c ==> Parent(xs[c..][i]) == ids[|ids| - 1]
    ensures forall i :: 0 <= i < |xs| - c ==> Parent(xs[c..][i]) !in ids[..|ids| - 1]
  {
    hide Place;
    var front, last := ids[..|ids| - 1], ids[|ids| - 1];
    assert ids == front + [last] && last !in front;
    PlacesGrow(front, last);
    forall i | c <= i < |xs|
      ensures Parent(xs[i]) == last
    {
      assert xs[i] in xs;
    }
    forall i | 0 <= i < c
      ensures xs[..c][i] == xs[i] && xs[i] in xs
    {
    }
  }

  // ---------------------------------------------------------------------------
  // The replies as groups, and as a fixed point
  // ---------------------------------------------------------------------------

  lemma {:induction false} InOrderMembers(es: seq<Entry>, chosen: seq<Entry>, x: Entry)
    ensures x in InOrder(es, chosen) <==> x in es && x in chosen
  {
    if es != [] {
      InOrderMembers(es[..|es| - 1], chosen, x);
      assert es == es[..|es| - 1] + [es[|es| - 1]];
    }
  }

  /** Comments with different ids come out once each. */
  lemma {:induction false} InOrderDistinct(es: seq<Entry>, chosen: seq<Entry>)
    requires UniqueComments(es) && forall x :: x in chosen ==> x.kind.Comment?
    ensures Distinct(InOrder(es, chosen))
  {
    if es != [] {
      var front, e := es[..|es| - 1], es[|es| - 1];
      InOrderDistinct(front, chosen);
      InOrderMembers(front, chosen, e);
      assert e in chosen ==> e !in front;
    }
  }

  lemma {:induction false} AnsweringIsKids(es: seq<Entry>, ids: set<string>, chosen: seq<Entry>, id: string)
    requires forall e :: e in es && Parent(e) == id ==> (IsReply(e, ids) <==> e in chosen)
    ensures Answering(InOrder(es, chosen), id) == Kids(es, ids, id)
  {
    if es != [] {
      var front, e := es[..|es| - 1], es[|es| - 1];
      assert es == front + [e];
      AnsweringIsKids(front, ids, chosen, id);
      AnsweringAppend(InOrder(front, chosen), if e in chosen then [e] else [], id);
      assert [e][..0] == [];
      assert Answering([], id) == [] && Answering([e], id) == if Parent(e) == id then [e] else [];
    }
  }

  lemma {:induction false} GroupedIsKidsOf(es: seq<Entry>, ids: set<string>, chosen: seq<Entry>, parents: seq<string>)
    requires forall e :: e in es && Parent(e) in parents ==> (IsReply(e, ids) <==> e in chosen)
    ensures Grouped(InOrder(es, chosen), parents) == KidsOf(es, ids, parents)
  {
    hide InOrder, Answering, Kids;
    if parents != [] {
      var last := parents[|parents| - 1];
      assert last in parents;
      GroupedIsKidsOf(es, ids, chosen, parents[..|parents| - 1]);
      AnsweringIsKids(es, ids, chosen, last);
    }
  }

  lemma {:induction false} KidsOfAppend(es: seq<Entry>, ids: set<string>, a: seq<string>, b: seq<string>)
    ensures KidsOf(es, ids, a + b) == KidsOf(es, ids, a) + KidsOf(es, ids, b)
  {
    hide Kids;
    if b == [] {
      assert a + b == a;
    } else {
      assert (a + b)[..|a + b| - 1] == a + b[..|b| - 1];
      KidsOfAppend(es, ids, a, b[..|b| - 1]);
    }
  }

  /** One more generation is the replies to the root and to all generations before. */
  lemma {:induction false} NextGenerations(es: seq<Entry>, root: string, n: nat)
    ensures KidsOf(es, CommentIds(es), [root] + Ids(Generations(es, root, n))) == Generations(es, root, n + 1)
  {
    hide KidsOf;
    var ids := CommentIds(es);
    if n == 0 {
      assert [root] + Ids([]) == [root];
      assert Generations(es, root, 1) == [] + KidsOf(es, ids, [root]);
    } else {
      var before, last := Generations(es, root, n - 1), Generation(es, root, n);
      NextGenerations(es, root, n - 1);
      assert Ids(before + last) == Ids(before) + Ids(last);
      assert [root] + (Ids(before) + Ids(last)) == ([root] + Ids(before)) + Ids(last);
      KidsOfAppend(es, ids, [root] + Ids(before), Ids(last));
      assert Generation(es, root, n + 1) == KidsOf(es, ids, Ids(last));
    }
  }

  /** Any list that is its own replies, with the root's, begins with every number of generations. */
  lemma {:induction false} FixedPointBegins(es: seq<Entry>, root: string, xs: seq<Entry>, n: nat)
    requires xs == KidsOf(es, CommentIds(es), [root] + Ids(xs))
    ensures Generations(es, root, n) <= xs
  {
    hide KidsOf, Generation;
    if n > 0 {
      FixedPointBegins(es, root, xs, n - 1);
      var before := Generations(es, root, n - 1);
      NextGenerations(es, root, n - 1);
      var rest := xs[|before|..];
      assert xs == before + rest;
      assert [root] + Ids(xs) == ([root] + Ids(before)) + Ids(rest);
      KidsOfAppend(es, CommentIds(es), [root] + Ids(before), Ids(rest));
    }
  }

  // ---------------------------------------------------------------------------
  // Chronological order
  // ---------------------------------------------------------------------------

  ghost predicate Chronological(xs: seq<Entry>) {
    forall i, j :: 0 <= i < j < |xs| ==> xs[i].createdAt < xs[j].createdAt
  }

  lemma {:induction false} InOrderAscends(es: seq<Entry>, chosen: seq<Entry>)
    requires Chronological(es)
    ensures Chronological(InOrder(es, chosen))
  {
    if es != [] {
      var front, e := es[..|es| - 1], es[|es| - 1];
      InOrderAscends(front, chosen);
      var xs := InOrder(front, chosen);
      forall i | 0 <= i < |xs|
        ensures xs[i].createdAt < e.createdAt
      {
        InOrderMembers(front, chosen, xs[i]);
        var k :| 0 <= k < |front| && front[k] == xs[i];
        assert es[k].createdAt < es[|es| - 1].createdAt;
      }
    }
  }

  /** Two chronological lists of the same entries are equal. */
  lemma {:induction false} ChronologicalUnique(a: seq<Entry>, b: seq<Entry>)
    requires Chronological(a) && Chronological(b) && forall x :: x in a <==> x in b
    ensures a == b
  {
    assert a != [] ==> a[0] in a;
    assert b != [] ==> b[0] in b;
    if a != [] && b != [] {
      SameHead(a, b);
      TailMembers(a);
      TailMembers(b);
      hide Chronological;
      ChronologicalUnique(a[1..], b[1..]);
      assert a == [a[0]] + a[1..] && b == [b[0]] + b[1..];
    }
  }

  lemma SameHead(a: seq<Entry>, b: seq<Entry>)
    requires Chronological(a) && Chronological(b) && a != [] && b != [] && a[0] in b && b[0] in a
    ensures a[0] == b[0]
  {
    FirstIsLeast(a);
    FirstIsLeast(b);
    var k :| 0 <= k < |b| && b[k] == a[0];
    assert b[k].createdAt <= b[0].createdAt;
  }

  lemma FirstIsLeast(xs: seq<Entry>)
    requires Chronological(xs) && xs != []
    ensures forall x :: x in xs ==> xs[0].createdAt <= x.createdAt
  {
  }

  lemma TailMembers(xs: seq<Entry>)
    requires Chronological(xs) && xs != []
    ensures Chronological(xs[1..])
    ensures forall x :: x in xs[1..] <==> x in xs && x != xs[0]
  {
    assert xs == [xs[0]] + xs[1..];
  }

  /** The row's own facts: replies are loaded comments, closed under replies, without the root. */
  lemma RowFacts(es: seq<Entry>, root: Entry)
    requires UniqueComments(es) && IsRoot(es, root)
    ensures var d := Descendants(es, root.id);
            && (forall x :: x in d ==> x in es && IsReply(x, CommentIds(es)))
            && d == KidsOf(es, CommentIds(es), [root.id] + Ids(d))
            && Distinct(d) && Distinct([root.id] + Ids(d))
  {
    var d := Descendants(es, root.id);
    hide Generation, KidsOf, Climb;
    NextGenerations(es, root.id, |es|);
    LastGeneration(es, root, |es| + 1);
    assert Generations(es, root.id, |es| + 1) == d + [];
    GenerationsDistinct(es, root, |es|);
    forall x | x in d
      ensures x in es && IsReply(x, CommentIds(es)) && x != root
    {
      KidsOfMembers(es, CommentIds(es), [root.id] + Ids(d), x);
    }
    IdsDistinct(es, root, d);
  }

  lemma IdsDistinct(es: seq<Entry>, root: Entry, d: seq<Entry>)
    requires UniqueComments(es) && root in es && root.kind.Comment? && Distinct(d)
    requires forall x :: x in d ==> x in es && x.kind.Comment? && x != root
    ensures Distinct([root.id] + Ids(d))
  {
    var all := [root] + d;
    forall i, j | 0 <= i < j < |all|
      ensures all[i].id != all[j].id
    {
      assert all[j] in d && (i > 0 ==> all[i] in d);
      if all[i].id == all[j].id {
        SameCommentSameEntry(es, all[i], all[j]);
      }
    }
    assert forall i :: 0 <= i < |all| ==> ([root.id] + Ids(d))[i] == all[i].id;
  }

  /** The replies in input order are the replies breadth-first if and only if, read in input order, their
      parents come in that order too. */
  lemma BreadthFirstIsInputOrderIff(es: seq<Entry>, root: Entry)
    requires UniqueComments(es) && IsRoot(es, root)
    ensures var d := Descendants(es, root.id);
            var r := InOrder(es, d);
            && RepliesTo([root.id] + Ids(r), r)
            && (d == r <==> ParentsInOrder([root.id] + Ids(r), r))
  {
    var ids, d := CommentIds(es), Descendants(es, root.id);
    var r := InOrder(es, d);
    RowFacts(es, root);
    hide Descendants, InOrder, CommentIds, IsReply, Place;
    forall x
      ensures x in r <==> x in d
    {
      InOrderMembers(es, d, x);
    }
    InOrderDistinct(es, d);
    SameIdSet(r, d);
    KidsOfParents(es, ids, [root.id] + Ids(d));
    if d == r {
      KidsOfInOrder(es, ids, [root.id] + Ids(d));
    } else if ParentsInOrder([root.id] + Ids(r), r) {
      InOrderIsBreadthFirst(es, root, d, r);
    }
  }

  lemma SameIdSet(a: seq<Entry>, b: seq<Entry>)
    requires forall x :: x in a <==> x in b
    ensures forall id :: id in Ids(a) <==> id in Ids(b)
  {
    forall id
      ensures id in Ids(a) <==> id in Ids(b)
    {
      if i :| 0 <= i < |a| && Ids(a)[i] == id {
        assert a[i] in b;
        var j :| 0 <= j < |b| && b[j] == a[i];
        assert Ids(b)[j] == id;
      }
      if i :| 0 <= i < |b| && Ids(b)[i] == id {
        assert b[i] in a;
        var j :| 0 <= j < |a| && a[j] == b[i];
        assert Ids(a)[j] == id;
      }
    }
  }

  lemma InOrderIsBreadthFirst(es: seq<Entry>, root: Entry, d: seq<Entry>, r: seq<Entry>)
    requires UniqueComments(es) && IsRoot(es, root) && d == Descendants(es, root.id) && r == InOrder(es, d)
    requires forall x :: x in r <==> x in d
    requires Distinct(r) && RepliesTo([root.id] + Ids(r), r) && ParentsInOrder([root.id] + Ids(r), r)
    ensures d == r
  {
    var ids, parents := CommentIds(es), [root.id] + Ids(r);
    RowFacts(es, root);
    hide InOrder, Place, Generations;
    SameIdSet(r, d);
    IdsDistinct(es, root, r) by {
      NotRoot(es, root, d);
    }
    forall e | e in es && Parent(e) in parents
      ensures IsReply(e, ids) <==> e in d
    {
      KidsOfMembers(es, ids, [root.id] + Ids(d), e);
    }
    GroupedSame(parents, r);
    GroupedIsKidsOf(es, ids, d, parents);
    FixedPointBegins(es, root.id, r, |es|);
    DistinctWithin(r, d);
    assert d <= r && |r| <= |d|;
  }

  lemma NotRoot(es: seq<Entry>, root: Entry, d: seq<Entry>)
    requires IsRoot(es, root) && forall x :: x in d ==> IsReply(x, CommentIds(es))
    ensures forall x :: x in d ==> x.kind.Comment? && x != root
  {
  }

  /** On chronological input the replies of a row are in chronological order if and only if no reply answers
      an earlier comment of the row than some older reply does. */
  lemma RepliesChronologicalIff(es: seq<Entry>, root: Entry)
    requires UniqueComments(es) && IsRoot(es, root) && Chronological(es)
    ensures var d := Descendants(es, root.id);
            var r := InOrder(es, d);
            && RepliesTo([root.id] + Ids(r), r)
            && (Chronological(d) <==> ParentsInOrder([root.id] + Ids(r), r))
  {
    var d := Descendants(es, root.id);
    var r := InOrder(es, d);
    RowFacts(es, root);
    BreadthFirstIsInputOrderIff(es, root);
    hide Descendants, InOrder, Place, ParentsInOrder, RepliesTo;
    InOrderAscends(es, d);
    forall x
      ensures x in r <==> x in d
    {
      InOrderMembers(es, d, x);
    }
    if Chronological(d) {
      ChronologicalUnique(d, r);
    }
  }

  lemma {:induction false} PlaceOf(ids: seq<string>, i: nat)
    requires Distinct(ids) && i < |ids|
    ensures Place(ids, ids[i]) == i
  {
    if i < |ids| - 1 {
      PlaceOf(ids[..|ids| - 1], i);
    }
  }

  /** A reply to the root that is younger than a reply to the root's first reply is listed before it. */
  lemma LateReplyComesFirst(r: Entry, a: Entry, b: Entry, c: Entry)
    requires r.kind.Comment? && a.kind.Comment? && b.kind.Comment? && c.kind.Comment?
    requires UniqueComments([r, a, b, c]) && Chronological([r, a, b, c]) && r.id != "" && a.id != ""
    requires r.parentId == None && a.parentId == c.parentId == Some(r.id) && b.parentId == Some(a.id)
    ensures IsRoot([r, a, b, c], r) && !Chronological(Descendants([r, a, b, c], r.id))
  {
    hide Descendants, InOrder, ParentsInOrder, RepliesTo, Chronological, UniqueComments, Distinct;
    var es := [r, a, b, c];
    assert r in es && a in es && b in es && c in es;
    FourReplies(r, a, b, c, Descendants(es, r.id));
    RepliesChronologicalIff(es, r);
    FourIds(r, a, b, c);
    OutOfPlace([r.id] + Ids([a, b, c]), a, b, c);
  }

  lemma FourIds(r: Entry, a: Entry, b: Entry, c: Entry)
    requires r.kind.Comment? && a.kind.Comment? && b.kind.Comment? && c.kind.Comment?
    requires UniqueComments([r, a, b, c])
    ensures Distinct([r.id] + Ids([a, b, c]))
  {
    var es := [r, a, b, c];
    assert forall i, j :: 0 <= i < j < 4 ==> es[i].id != es[j].id;
    assert forall i :: 0 <= i < 4 ==> ([r.id] + Ids([a, b, c]))[i] == es[i].id;
  }

  lemma OutOfPlace(ids: seq<string>, a: Entry, b: Entry, c: Entry)
    requires |ids| == 4 && Distinct(ids) && RepliesTo(ids, [a, b, c])
    requires Parent(b) == ids[1] && Parent(c) == ids[0]
    ensures !ParentsInOrder(ids, [a, b, c])
  {
    hide Place, Distinct, RepliesTo;
    PlaceOf(ids, 0);
    PlaceOf(ids, 1);
    assert [a, b, c][1] == b && [a, b, c][2] == c;
  }

  lemma FourReplies(r: Entry, a: Entry, b: Entry, c: Entry, d: seq<Entry>)
    requires r.kind.Comment? && a.kind.Comment? && b.kind.Comment? && c.kind.Comment?
    requires UniqueComments([r, a, b, c]) && IsRoot([r, a, b, c], r) && r.id != "" && a.id != ""
    requires a.parentId == c.parentId == Some(r.id) && b.parentId == Some(a.id)
    requires d == Descendants([r, a, b, c], r.id)
    ensures InOrder([r, a, b, c], d) == [a, b, c]
  {
    hide Descendants, InOrder;
    FourMembers(r, a, b, c);
    InOrderSnoc([], r, d);
    InOrderSnoc([r], a, d);
    InOrderSnoc([r, a], b, d);
    InOrderSnoc([r, a, b], c, d);
    assert InOrder([], d) == [] by {
      NoneInOrder(d);
    }
    assert [] + [r] == [r] && [r] + [a] == [r, a] && [r, a] + [b] == [r, a, b] && [r, a, b] + [c] == [r, a, b, c];
  }

  lemma NoneInOrder(chosen: seq<Entry>)
    ensures InOrder([], chosen) == []
  {
  }

  lemma InOrderSnoc(es: seq<Entry>, e: Entry, chosen: seq<Entry>)
    ensures InOrder(es + [e], chosen) == InOrder(es, chosen) + if e in chosen then [e] else []
  {
    assert (es + [e])[..|es|] == es;
  }

  lemma FourMembers(r: Entry, a: Entry, b: Entry, c: Entry)
    requires r.kind.Comment? && a.kind.Comment? && b.kind.Comment? && c.kind.Comment?
    requires UniqueComments([r, a, b, c]) && IsRoot([r, a, b, c], r) && r.id != "" && a.id != ""
    requires a.parentId == c.parentId == Some(r.id) && b.parentId == Some(a.id)
    ensures var d := Descendants([r, a, b, c], r.id); r !in d && a in d && b in d && c in d
  {
    hide Descendants, UniqueComments, CommentIds, FindComment, IsReply;
    var es := [r, a, b, c];
    assert r in es && a in es && b in es && c in es;
    RowFacts(es, r);
    ParentIs(es, a, r);
    ParentIs(es, c, r);
    ParentIs(es, b, a);
    assert Climb(es, r, 0) == Some(r) && Climb(es, a, 0) == Some(a);
    assert Climb(es, a, 1) == Climb(es, c, 1) == Climb(es, r, 0) && Climb(es, b, 2) == Climb(es, a, 1);
    hide Climb;
    DescendantsMembers(es, r, a);
    DescendantsMembers(es, r, b);
    DescendantsMembers(es, r, c);
  }

  lemma ParentIs(es: seq<Entry>, x: Entry, parent: Entry)
    requires UniqueComments(es) && parent in es && parent.kind.Comment? && parent.id != ""
    requires x.kind.Comment? && x.parentId == Some(parent.id)
    ensures IsReply(x, CommentIds(es)) && FindComment(es, parent.id) == parent
  {
    SameCommentSameEntry(es, FindComment(es, parent.id), parent);
  }
}
