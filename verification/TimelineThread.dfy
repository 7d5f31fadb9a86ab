/** Grouping a timeline into reply threads (apps/mobile/lib/timeline-thread.ts). */
module TimelineThread {
  import opened Text
  import opened Sequences
  import opened Timeline

  datatype Row = Row(entry: Entry, replies: seq<Entry>)

  /** A comment whose parent comment is loaded; every other entry starts a row. */
  predicate IsReply(e: Entry, ids: set<string>) {
    e.kind.Comment? && HasParent(e) && e.parentId.value in ids
  }

  function TopLevel(es: seq<Entry>, ids: set<string>): seq<Entry> {
    if es == [] then []
    else
      var e := es[|es| - 1];
      TopLevel(es[..|es| - 1], ids) + (if IsReply(e, ids) then [] else [e])
  }

  /** The replies to one comment, in input order. */
  function Kids(es: seq<Entry>, ids: set<string>, parent: string): seq<Entry> {
    if es == [] then []
    else
      var e := es[|es| - 1];
      Kids(es[..|es| - 1], ids, parent) + (if IsReply(e, ids) && e.parentId.value == parent then [e] else [])
  }

  function KidsOf(es: seq<Entry>, ids: set<string>, parents: seq<string>): seq<Entry> {
    if parents == [] then []
    else KidsOf(es, ids, parents[..|parents| - 1]) + Kids(es, ids, parents[|parents| - 1])
  }

  /** The k-th generation below a comment: siblings in input order, families in their parents' order. */
  function Generation(es: seq<Entry>, root: string, k: nat): seq<Entry> {
    if k == 0 then []
    else if k == 1 then KidsOf(es, CommentIds(es), [root])
    else KidsOf(es, CommentIds(es), Ids(Generation(es, root, k - 1)))
  }

  /** Generations 1 to n, one after the other: breadth-first order. */
  function Generations(es: seq<Entry>, root: string, n: nat): seq<Entry> {
    if n == 0 then [] else Generations(es, root, n - 1) + Generation(es, root, n)
  }

  function Descendants(es: seq<Entry>, root: string): seq<Entry> {
    Generations(es, root, |es|)
  }

  function RowOf(es: seq<Entry>, e: Entry): Row {
    Row(e, if e.kind.Comment? then Descendants(es, e.id) else [])
  }

  function Rows(es: seq<Entry>): (rows: seq<Row>)
    ensures |rows| == |TopLevel(es, CommentIds(es))|
  {
    var top := TopLevel(es, CommentIds(es));
    seq(|top|, i requires 0 <= i < |top| => RowOf(es, top[i]))
  }

  // ---------------------------------------------------------------------------
  // Parent chains
  // ---------------------------------------------------------------------------

  function FindComment(es: seq<Entry>, id: string): (e: Entry)
    requires id in CommentIds(es)
    ensures e in es && e.kind.Comment? && e.id == id
  {
    if es[0].kind.Comment? && es[0].id == id then es[0] else FindComment(es[1..], id)
  }

  /** The k-th ancestor, as far as parents are loaded. */
  function Climb(es: seq<Entry>, e: Entry, k: nat): Option<Entry>
    decreases k
  {
    if k == 0 then Some(e)
    else if IsReply(e, CommentIds(es)) then Climb(es, FindComment(es, e.parentId.value), k - 1)
    else None
  }

  /** The chain of parents ends at a top-level entry. */
  ghost predicate Anchored(es: seq<Entry>, e: Entry) {
    exists k: nat :: Climb(es, e, k).Some? && !IsReply(Climb(es, e, k).value, CommentIds(es))
  }

  /** x hangs below t. */
  ghost predicate Under(es: seq<Entry>, t: Entry, x: Entry) {
    x in es && exists k: nat :: k > 0 && Climb(es, x, k) == Some(t)
  }

  ghost predicate Acyclic(es: seq<Entry>) {
    forall e, k: nat :: e in es && k > 0 ==> Climb(es, e, k) != Some(e)
  }

  lemma {:induction false} ClimbAdd(es: seq<Entry>, e: Entry, j: nat, m: nat)
    requires Climb(es, e, j).Some?
    ensures Climb(es, e, j + m) == Climb(es, Climb(es, e, j).value, m)
    decreases j
  {
    if j > 0 {
      ClimbAdd(es, FindComment(es, e.parentId.value), j - 1, m);
    }
  }

  lemma {:induction false} ClimbStays(es: seq<Entry>, e: Entry, k: nat)
    requires e in es && Climb(es, e, k).Some?
    ensures Climb(es, e, k).value in es
    decreases k
  {
    if k > 0 {
      ClimbStays(es, FindComment(es, e.parentId.value), k - 1);
    }
  }

  /** A chain stops at the first top-level entry. */
  lemma NothingAbove(es: seq<Entry>, e: Entry, j: nat, k: nat)
    requires Climb(es, e, j).Some? && !IsReply(Climb(es, e, j).value, CommentIds(es)) && j < k
    ensures Climb(es, e, k) == None
  {
    ClimbAdd(es, e, j, k - j);
  }

  // ---------------------------------------------------------------------------
  // Generations are the entries at one distance from the root
  // ---------------------------------------------------------------------------

  lemma {:induction false} KidsMembers(es: seq<Entry>, ids: set<string>, parent: string, x: Entry)
    ensures x in Kids(es, ids, parent) <==> x in es && IsReply(x, ids) && x.parentId.value == parent
  {
    if es != [] {
      KidsMembers(es[..|es| - 1], ids, parent, x);
      assert es == es[..|es| - 1] + [es[|es| - 1]];
    }
  }

  lemma {:induction false} KidsOfMembers(es: seq<Entry>, ids: set<string>, parents: seq<string>, x: Entry)
    ensures x in KidsOf(es, ids, parents) <==> x in es && IsReply(x, ids) && x.parentId.value in parents
  {
    if parents != [] {
      KidsOfMembers(es, ids, parents[..|parents| - 1], x);
      KidsMembers(es, ids, parents[|parents| - 1], x);
      assert parents == parents[..|parents| - 1] + [parents[|parents| - 1]];
    }
  }

  lemma {:induction false} KidsOfIds(es: seq<Entry>, parents: seq<Entry>, x: Entry)
    requires UniqueComments(es)
    requires forall p :: p in parents ==> p in es && p.kind.Comment?
    ensures x in KidsOf(es, CommentIds(es), Ids(parents)) <==>
            x in es && IsReply(x, CommentIds(es)) && FindComment(es, x.parentId.value) in parents
  {
    var ids := CommentIds(es);
    KidsOfMembers(es, ids, Ids(parents), x);
    if x in es && IsReply(x, ids) {
      var p := FindComment(es, x.parentId.value);
      if i :| 0 <= i < |parents| && Ids(parents)[i] == x.parentId.value {
        SameCommentSameEntry(es, p, parents[i]);
      }
      if i :| 0 <= i < |parents| && parents[i] == p {
        assert Ids(parents)[i] == p.id;
      }
    }
  }

  lemma {:induction false} GenerationMembers(es: seq<Entry>, root: Entry, k: nat, x: Entry)
    requires UniqueComments(es) && root in es && root.kind.Comment? && k > 0
    ensures x in Generation(es, root.id, k) <==> x in es && Climb(es, x, k) == Some(root)
    decreases k
  {
    hide KidsOf;
    var ids := CommentIds(es);
    var parents := if k == 1 then [root] else Generation(es, root.id, k - 1);
    assert Ids([root]) == [root.id];
    forall p | p in parents
      ensures p in es && p.kind.Comment?
    {
      if k > 1 {
        GenerationIsReplies(es, root.id, k - 1, p);
      }
    }
    KidsOfIds(es, parents, x);
    if k > 1 && x in es && IsReply(x, ids) {
      GenerationMembers(es, root, k - 1, FindComment(es, x.parentId.value));
    }
  }

  lemma GenerationIsReplies(es: seq<Entry>, root: string, k: nat, x: Entry)
    requires x in Generation(es, root, k)
    ensures x in es && IsReply(x, CommentIds(es))
  {
    if k > 0 {
      KidsOfMembers(es, CommentIds(es), if k == 1 then [root] else Ids(Generation(es, root, k - 1)), x);
    }
  }

  // ---------------------------------------------------------------------------
  // No entry is met twice
  // ---------------------------------------------------------------------------

  lemma {:induction false} KidsDistinct(es: seq<Entry>, ids: set<string>, parent: string)
    requires UniqueComments(es)
    ensures Distinct(Kids(es, ids, parent))
  {
    if es != [] {
      var front, e := es[..|es| - 1], es[|es| - 1];
      KidsDistinct(front, ids, parent);
      KidsMembers(front, ids, parent, e);
      assert e.kind.Comment? ==> e !in front;
    }
  }

  lemma {:induction false} KidsOfDistinct(es: seq<Entry>, ids: set<string>, parents: seq<string>)
    requires UniqueComments(es) && Distinct(parents)
    ensures Distinct(KidsOf(es, ids, parents))
  {
    if parents != [] {
      var front, last := parents[..|parents| - 1], parents[|parents| - 1];
      KidsOfDistinct(es, ids, front);
      KidsDistinct(es, ids, last);
      forall x | x in KidsOf(es, ids, front)
        ensures x !in Kids(es, ids, last)
      {
        KidsOfMembers(es, ids, front, x);
        KidsMembers(es, ids, last, x);
      }
      DistinctAppend(KidsOf(es, ids, front), Kids(es, ids, last));
    }
  }

  lemma {:induction false} GenerationDistinct(es: seq<Entry>, root: string, k: nat)
    requires UniqueComments(es)
    ensures Distinct(Generation(es, root, k))
  {
    if k == 1 {
      KidsOfDistinct(es, CommentIds(es), [root]);
    } else if k > 1 {
      var before := Generation(es, root, k - 1);
      GenerationDistinct(es, root, k - 1);
      forall x | x in before
        ensures x in es && x.kind.Comment?
      {
        GenerationIsReplies(es, root, k - 1, x);
      }
      KidsOfDistinct(es, CommentIds(es), Ids(before));
    }
  }

  /** A root: a comment that starts a row. */
  predicate IsRoot(es: seq<Entry>, root: Entry) {
    root in es && root.kind.Comment? && !IsReply(root, CommentIds(es))
  }

  lemma {:induction false} GenerationsMembers(es: seq<Entry>, root: Entry, n: nat, x: Entry)
    requires UniqueComments(es) && IsRoot(es, root)
    ensures x in Generations(es, root.id, n) <==>
        x in es && exists k: nat :: 0 < k <= n && Climb(es, x, k) == Some(root)
  {
    hide Generation, Climb;
    if n > 0 {
      GenerationsMembers(es, root, n - 1, x);
      GenerationMembers(es, root, n, x);
    }
  }

  lemma {:induction false} GenerationsDistinct(es: seq<Entry>, root: Entry, n: nat)
    requires UniqueComments(es) && IsRoot(es, root)
    ensures Distinct(Generations(es, root.id, n))
  {
    hide Generation, Climb;
    if n > 0 {
      var before, last := Generations(es, root.id, n - 1), Generation(es, root.id, n);
      GenerationsDistinct(es, root, n - 1);
      GenerationDistinct(es, root.id, n);
      forall x | x in before
        ensures x !in last
      {
        GenerationsMembers(es, root, n - 1, x);
        GenerationMembers(es, root, n, x);
        var k: nat :| 0 < k <= n - 1 && Climb(es, x, k) == Some(root);
        NothingAbove(es, x, k, n);
      }
      DistinctAppend(before, last);
    }
  }

  /** The descendants are fewer than the entries, so every breadth-first run is finite. */
  lemma GenerationsBounded(es: seq<Entry>, root: Entry, n: nat)
    requires UniqueComments(es) && IsRoot(es, root)
    ensures |Generations(es, root.id, n)| < |es|
  {
    var all := Generations(es, root.id, n);
    GenerationsDistinct(es, root, n);
    forall x | x in all
      ensures x in es && x != root
    {
      GenerationsMembers(es, root, n, x);
      var k: nat :| 0 < k <= n && Climb(es, x, k) == Some(root);
    }
    DistinctWithin(all, es);
  }

  lemma {:induction false} EmptyForever(es: seq<Entry>, root: string, k: nat, n: nat)
    requires 0 < k <= n && Generation(es, root, k) == []
    ensures Generation(es, root, n) == [] && Generations(es, root, n) == Generations(es, root, k)
    decreases n
  {
    hide KidsOf;
    if k < n {
      EmptyForever(es, root, k, n - 1);
      NoParentsNoKids(es);
      assert Ids(Generation(es, root, n - 1)) == [];
      assert Generation(es, root, n) == [];
    }
  }

  lemma {:induction false} Deeper(es: seq<Entry>, root: string, n: nat)
    requires Generation(es, root, n) != []
    ensures |Generations(es, root, n)| >= n
  {
    hide Generation;
    if n > 1 {
      if Generation(es, root, n - 1) == [] {
        EmptyForever(es, root, n - 1, n);
      }
      Deeper(es, root, n - 1);
    }
  }

  /** Beyond |es| generations nothing is left, so the bound in Descendants loses nothing. */
  lemma AllGenerations(es: seq<Entry>, root: Entry, n: nat)
    requires UniqueComments(es) && IsRoot(es, root)
    requires n > 0 && (|es| <= n || Generation(es, root.id, n) == [])
    ensures Generation(es, root.id, n) == [] && Generations(es, root.id, n) == Descendants(es, root.id)
  {
    LastGeneration(es, root, n);
    LastGeneration(es, root, |es|);
    if n <= |es| {
      EmptyForever(es, root.id, n, |es|);
    } else {
      EmptyForever(es, root.id, |es|, n);
    }
  }

  lemma LastGeneration(es: seq<Entry>, root: Entry, n: nat)
    requires UniqueComments(es) && IsRoot(es, root)
    ensures |es| <= n ==> Generation(es, root.id, n) == []
  {
    if Generation(es, root.id, n) != [] {
      Deeper(es, root.id, n);
      GenerationsBounded(es, root, n);
    }
  }

  /** The replies of a row are exactly the comments whose parent chain leads to its entry. */
  lemma DescendantsMembers(es: seq<Entry>, root: Entry, x: Entry)
    requires UniqueComments(es) && IsRoot(es, root)
    ensures x in Descendants(es, root.id) <==> Under(es, root, x)
    ensures Distinct(Descendants(es, root.id))
  {
    hide Climb;
    GenerationsMembers(es, root, |es|, x);
    GenerationsDistinct(es, root, |es|);
    if k: nat :| x in es && k > 0 && Climb(es, x, k) == Some(root) {
      GenerationMembers(es, root, k, x);
      LastGeneration(es, root, k);
    }
  }

  // ---------------------------------------------------------------------------
  // The thread builder
  // ---------------------------------------------------------------------------

  /** The map from a parent's id to its replies, after the first i entries. */
  ghost predicate GroupsOf(groups: map<string, seq<Entry>>, es: seq<Entry>, ids: set<string>) {
    forall parent :: Kids(es, ids, parent) == if parent in groups then groups[parent] else []
  }

  method BuildTimelineRows(entries: seq<Entry>) returns (rows: seq<Row>)
    requires UniqueComments(entries)
    ensures rows == Rows(entries)
  {
    var commentIds := CollectCommentIds(entries);
    var topLevel, childrenByParent := Partition(entries, commentIds);
    hide GroupsOf, RowOf, Rows, TopLevel, Descendants, UniqueComments;
    rows := [];
    for i := 0 to |topLevel|
      invariant |rows| == i
      invariant forall j :: 0 <= j < i ==> rows[j] == RowOf(entries, topLevel[j])
    {
      var replies := [];
      if topLevel[i].kind.Comment? {
        TopLevelMembers(entries, commentIds, topLevel[i]);
        replies := CollectDescendants(entries, childrenByParent, topLevel[i]);
      }
      RowIs(entries, topLevel[i], replies);
      rows := rows + [Row(topLevel[i], replies)];
    }
    RowsAre(entries, rows);
  }

  lemma RowsAre(es: seq<Entry>, rows: seq<Row>)
    requires |rows| == |TopLevel(es, CommentIds(es))|
    requires forall j :: 0 <= j < |rows| ==> rows[j] == RowOf(es, TopLevel(es, CommentIds(es))[j])
    ensures rows == Rows(es)
  {
  }

  lemma RowIs(es: seq<Entry>, e: Entry, replies: seq<Entry>)
    requires replies == if e.kind.Comment? then Descendants(es, e.id) else []
    ensures RowOf(es, e) == Row(e, replies)
  {
  }

  method CollectCommentIds(entries: seq<Entry>) returns (commentIds: set<string>)
    ensures commentIds == CommentIds(entries)
  {
    commentIds := {};
    for i := 0 to |entries|
      invariant commentIds == CommentIds(entries[..i])
    {
      assert entries[..i + 1] == entries[..i] + [entries[i]];
      if entries[i].kind.Comment? {
        commentIds := commentIds + {entries[i].id};
      }
    }
    assert entries[..|entries|] == entries;
  }

  method Partition(entries: seq<Entry>, commentIds: set<string>)
    returns (topLevel: seq<Entry>, childrenByParent: map<string, seq<Entry>>)
    ensures topLevel == TopLevel(entries, commentIds)
    ensures GroupsOf(childrenByParent, entries, commentIds)
  {
    topLevel, childrenByParent := [], map[];
    for i := 0 to |entries|
      invariant topLevel == TopLevel(entries[..i], commentIds)
      invariant GroupsOf(childrenByParent, entries[..i], commentIds)
    {
      var e := entries[i];
      assert entries[..i + 1][..i] == entries[..i];
      if e.kind.Comment? && HasParent(e) && e.parentId.value in commentIds {
        var list := if e.parentId.value in childrenByParent then childrenByParent[e.parentId.value] else [];
        childrenByParent := childrenByParent[e.parentId.value := list + [e]];
      } else {
        topLevel := topLevel + [e];
      }
    }
    assert entries[..|entries|] == entries;
  }

  lemma {:induction false} TopLevelMembers(es: seq<Entry>, ids: set<string>, x: Entry)
    ensures x in TopLevel(es, ids) <==> x in es && !IsReply(x, ids)
  {
    if es != [] {
      TopLevelMembers(es[..|es| - 1], ids, x);
      assert es == es[..|es| - 1] + [es[|es| - 1]];
    }
  }

  /** The queue of the breadth-first search while generation `level` is being expanded. */
  ghost predicate Searching(es: seq<Entry>, root: string, level: nat, done: nat, queue: seq<string>, out: seq<Entry>) {
    var now := if level == 0 then [root] else Ids(Generation(es, root, level));
    && done <= |now|
    && out == Generations(es, root, level) + KidsOf(es, CommentIds(es), now[..done])
    && queue == now[done..] + Ids(KidsOf(es, CommentIds(es), now[..done]))
  }

  method CollectDescendants(ghost es: seq<Entry>, childrenByParent: map<string, seq<Entry>>, root: Entry)
    returns (out: seq<Entry>)
    requires UniqueComments(es) && IsRoot(es, root)
    requires GroupsOf(childrenByParent, es, CommentIds(es))
    ensures out == Descendants(es, root.id)
  {
    hide Searching, Generation, Generations, Descendants, KidsOf, GroupsOf;
    out := [];
    var queue := [root.id];
    ghost var level, done, expanded := 0, 0, 0;
    StartSearch(es, root.id);
    while queue != []
      invariant Searching(es, root.id, level, done, queue, out)
      invariant expanded + |queue| == 1 + |out|
      invariant |out| < |es|
      decreases |es| - expanded
    {
      level, done := NextLevel(es, root, level, done, queue, out);
      assert queue == [queue[0]] + queue[1..];
      var pid := queue[0];
      queue := queue[1..];
      expanded := expanded + 1;
      ghost var out0, queue0 := out, queue;
      var kids := if pid in childrenByParent then childrenByParent[pid] else [];
      for i := 0 to |kids|
        invariant out == out0 + kids[..i]
        invariant queue == queue0 + Ids(kids[..i])
      {
        out := out + [kids[i]];
        queue := queue + [kids[i].id];
        assert kids[..i + 1] == kids[..i] + [kids[i]];
      }
      assert kids[..|kids|] == kids;
      GroupIs(childrenByParent, es, CommentIds(es), pid);
      ExpandOne(es, root, level, done, [pid] + queue0, out0);
      done := done + 1;
      SearchBounded(es, root, level, done, queue, out);
    }
    FinishSearch(es, root, level, done, out);
  }

  lemma GroupIs(groups: map<string, seq<Entry>>, es: seq<Entry>, ids: set<string>, parent: string)
    requires GroupsOf(groups, es, ids)
    ensures Kids(es, ids, parent) == if parent in groups then groups[parent] else []
  {
  }

  lemma StartSearch(es: seq<Entry>, root: string)
    ensures Searching(es, root, 0, 0, [root], [])
  {
    assert [root][0..] == [root];
    assert Ids([]) == [];
  }

  /** When a generation is expanded, the search moves on to the next one. */
  lemma NextLevel(es: seq<Entry>, root: Entry, level: nat, done: nat, queue: seq<string>, out: seq<Entry>)
    returns (level': nat, done': nat)
    requires Searching(es, root.id, level, done, queue, out) && queue != []
    ensures Searching(es, root.id, level', done', queue, out)
    ensures done' < |if level' == 0 then [root.id] else Ids(Generation(es, root.id, level'))|
  {
    hide KidsOf;
    var now := if level == 0 then [root.id] else Ids(Generation(es, root.id, level));
    if done < |now| {
      return level, done;
    }
    assert now[..done] == now && now[done..] == [];
    var next := Ids(Generation(es, root.id, level + 1));
    assert next == queue && next[0..] == next;
    assert KidsOf(es, CommentIds(es), next[..0]) == [] by { NoParentsNoKids(es); }
    assert Generations(es, root.id, level + 1) == out;
    return level + 1, 0;
  }

  lemma NoParentsNoKids(es: seq<Entry>)
    ensures KidsOf(es, CommentIds(es), []) == []
  {
  }

  lemma ExpandOne(es: seq<Entry>, root: Entry, level: nat, done: nat, queue: seq<string>, out: seq<Entry>)
    requires Searching(es, root.id, level, done, queue, out)
    requires done < |if level == 0 then [root.id] else Ids(Generation(es, root.id, level))|
    ensures queue != []
    ensures var kids := Kids(es, CommentIds(es), queue[0]);
      Searching(es, root.id, level, done + 1, queue[1..] + Ids(kids), out + kids)
  {
    hide Generation, Generations, Kids, KidsOf, CommentIds, Ids;
    var ids := CommentIds(es);
    var now := if level == 0 then [root.id] else Ids(Generation(es, root.id, level));
    assert now[done..] == [now[done]] + now[done + 1..];
    var before, kids := KidsOf(es, ids, now[..done]), Kids(es, ids, now[done]);
    KidsOfSnoc(es, ids, now, done);
    assert queue == [now[done]] + (now[done + 1..] + Ids(before));
    assert queue[1..] == now[done + 1..] + Ids(before);
  }

  lemma KidsOfSnoc(es: seq<Entry>, ids: set<string>, parents: seq<string>, n: nat)
    requires n < |parents|
    ensures KidsOf(es, ids, parents[..n + 1]) == KidsOf(es, ids, parents[..n]) + Kids(es, ids, parents[n])
  {
    assert parents[..n + 1][..n] == parents[..n];
  }

  lemma SearchBounded(es: seq<Entry>, root: Entry, level: nat, done: nat, queue: seq<string>, out: seq<Entry>)
    requires UniqueComments(es) && IsRoot(es, root)
    requires Searching(es, root.id, level, done, queue, out)
    ensures |out| < |es|
  {
    hide KidsOf;
    var now := if level == 0 then [root.id] else Ids(Generation(es, root.id, level));
    KidsOfPrefix(es, CommentIds(es), now, done);
    assert KidsOf(es, CommentIds(es), now) == Generation(es, root.id, level + 1);
    GenerationsBounded(es, root, level + 1);
  }

  lemma {:induction false} KidsOfPrefix(es: seq<Entry>, ids: set<string>, parents: seq<string>, n: nat)
    requires n <= |parents|
    ensures |KidsOf(es, ids, parents[..n])| <= |KidsOf(es, ids, parents)|
    decreases |parents|
  {
    if n < |parents| {
      KidsOfPrefix(es, ids, parents[..|parents| - 1], n);
      assert parents[..|parents| - 1][..n] == parents[..n];
    } else {
      assert parents[..n] == parents;
    }
  }

  lemma FinishSearch(es: seq<Entry>, root: Entry, level: nat, done: nat, out: seq<Entry>)
    requires UniqueComments(es) && IsRoot(es, root)
    requires Searching(es, root.id, level, done, [], out)
    ensures out == Descendants(es, root.id)
  {
    hide KidsOf;
    var now := if level == 0 then [root.id] else Ids(Generation(es, root.id, level));
    assert done == |now|;
    assert now[..done] == now;
    assert KidsOf(es, CommentIds(es), now) == Generation(es, root.id, level + 1);
    assert |Ids(Generation(es, root.id, level + 1))| == 0;
    AllGenerations(es, root, level + 1);
  }
}
