/** What the rows of a timeline are, in terms of the entries and their parents alone
    (apps/mobile/lib/timeline-thread.ts). */
module ThreadRows {
  import opened Text
  import opened Sequences
  import opened Timeline
  import opened TimelineThread
  import opened ThreadOrder

  /** The entry is a comment that answers the comment of this id. */
  predicate Answers(x: Entry, id: string) {
    x.kind.Comment? && x.parentId == Some(id) && id != ""
  }

  ghost predicate AnswersLoaded(es: seq<Entry>, x: Entry) {
    exists c :: c in es && c.kind.Comment? && Answers(x, c.id)
  }

  lemma ReplyIff(es: seq<Entry>, x: Entry)
    ensures IsReply(x, CommentIds(es)) <==> AnswersLoaded(es, x)
  {
    if IsReply(x, CommentIds(es)) {
      var c :| c in es && c.kind.Comment? && c.id == x.parentId.value;
      assert Answers(x, c.id);
    }
  }

  /** `a` stands before `b` in the list. */
  ghost predicate Before(es: seq<Entry>, a: Entry, b: Entry) {
    exists i, j :: 0 <= i < j < |es| && es[i] == a && es[j] == b
  }

  lemma BeforeSnoc(es: seq<Entry>, e: Entry, a: Entry, b: Entry)
    requires Before(es, a, b) || (a in es && b == e)
    ensures Before(es + [e], a, b)
  {
    var all := es + [e];
    if Before(es, a, b) {
      var i, j :| 0 <= i < j < |es| && es[i] == a && es[j] == b;
      assert all[i] == a && all[j] == b;
    } else {
      var i :| 0 <= i < |es| && es[i] == a;
      assert all[i] == a && all[|es|] == b;
    }
  }

  lemma {:induction false} TopLevelInOrder(es: seq<Entry>, ids: set<string>, i: nat, j: nat)
    requires i < j < |TopLevel(es, ids)|
    ensures Before(es, TopLevel(es, ids)[i], TopLevel(es, ids)[j])
  {
    hide IsReply, Before;
    assert es != [];
    var front, e := es[..|es| - 1], es[|es| - 1];
    assert es == front + [e];
    var top := TopLevel(front, ids);
    if j < |top| {
      TopLevelInOrder(front, ids, i, j);
    } else {
      TopLevelMembers(front, ids, top[i]);
    }
    BeforeSnoc(front, e, TopLevel(es, ids)[i], TopLevel(es, ids)[j]);
  }

  /** An entry starts a row exactly if it answers no loaded comment; rows stand in input order, and activities
      have no replies. */
  lemma RowsAreStarts(es: seq<Entry>, x: Entry)
    ensures (exists row :: row in Rows(es) && row.entry == x) <==> x in es && !AnswersLoaded(es, x)
    ensures forall i, j :: 0 <= i < j < |Rows(es)| ==> Before(es, Rows(es)[i].entry, Rows(es)[j].entry)
    ensures forall row :: row in Rows(es) && row.entry.kind.Activity? ==> row.replies == []
  {
    hide Descendants, IsReply, Before, AnswersLoaded;
    var top := TopLevel(es, CommentIds(es));
    TopLevelMembers(es, CommentIds(es), x);
    ReplyIff(es, x);
    if x in top {
      var i :| 0 <= i < |top| && top[i] == x;
      assert Rows(es)[i] in Rows(es);
    }
    forall i, j | 0 <= i < j < |Rows(es)|
      ensures Before(es, Rows(es)[i].entry, Rows(es)[j].entry)
    {
      TopLevelInOrder(es, CommentIds(es), i, j);
    }
  }

  lemma {:induction false} KidsInOrder(es: seq<Entry>, ids: set<string>, parent: string, i: nat, j: nat)
    requires i < j < |Kids(es, ids, parent)|
    ensures Before(es, Kids(es, ids, parent)[i], Kids(es, ids, parent)[j])
  {
    hide IsReply, Before;
    assert es != [];
    var front, e := es[..|es| - 1], es[|es| - 1];
    assert es == front + [e];
    var kids := Kids(front, ids, parent);
    if j < |kids| {
      KidsInOrder(front, ids, parent, i, j);
    } else {
      KidsMembers(front, ids, parent, kids[i]);
    }
    BeforeSnoc(front, e, Kids(es, ids, parent)[i], Kids(es, ids, parent)[j]);
  }

  lemma {:induction false} SiblingsInOrder(es: seq<Entry>, ids: set<string>, parents: seq<string>, i: nat, j: nat)
    requires Distinct(parents) && i < j < |KidsOf(es, ids, parents)|
    requires KidsOf(es, ids, parents)[i].parentId == KidsOf(es, ids, parents)[j].parentId
    ensures Before(es, KidsOf(es, ids, parents)[i], KidsOf(es, ids, parents)[j])
  {
    hide IsReply, Before, Kids;
    assert parents != [];
    var front, last := parents[..|parents| - 1], parents[|parents| - 1];
    var before, kids := KidsOf(es, ids, front), Kids(es, ids, last);
    if j < |before| {
      SiblingsInOrder(es, ids, front, i, j);
    } else if i < |before| {
      KidsOfMembers(es, ids, front, before[i]);
      KidsMembers(es, ids, last, kids[j - |before|]);
    } else {
      KidsInOrder(es, ids, last, i - |before|, j - |before|);
    }
  }

  /** The replies of a row: exactly the comments that answer its comment or another reply; no reply comes before
      one whose parent comes earlier in the row, and replies to one comment stand in input order. */
  lemma RepliesAre(es: seq<Entry>, row: Row, x: Entry)
    requires UniqueComments(es) && row in Rows(es) && row.entry.kind.Comment?
    ensures x in row.replies <==>
              x in es && (Answers(x, row.entry.id) || exists y :: y in row.replies && Answers(x, y.id))
    ensures var ids := [row.entry.id] + Ids(row.replies);
            RepliesTo(ids, row.replies) && ParentsInOrder(ids, row.replies)
    ensures forall i, j :: 0 <= i < j < |row.replies| && row.replies[i].parentId == row.replies[j].parentId ==>
              Before(es, row.replies[i], row.replies[j])
  {
    var root, d, ids := row.entry, row.replies, CommentIds(es);
    RowIsRoot(es, row);
    RowFacts(es, root);
    hide Descendants, Rows, Place, KidsOf, UniqueComments, Before, ParentsInOrder;
    var parents := [root.id] + Ids(d);
    KidsOfInOrder(es, ids, parents);
    KidsOfMembers(es, ids, parents, x);
    ReplyIff(es, x);
    forall i, j | 0 <= i < j < |d| && d[i].parentId == d[j].parentId
      ensures Before(es, d[i], d[j])
    {
      SiblingsInOrder(es, ids, parents, i, j);
    }
    RepliesById(es, root, d, x);
  }

  lemma RowIsRoot(es: seq<Entry>, row: Row)
    requires row in Rows(es) && row.entry.kind.Comment?
    ensures IsRoot(es, row.entry) && row.replies == Descendants(es, row.entry.id)
  {
    hide Descendants;
    TopLevelMembers(es, CommentIds(es), row.entry);
  }

  /** Being a reply to one of these ids, in terms of the entries that carry them. */
  lemma RepliesById(es: seq<Entry>, root: Entry, d: seq<Entry>, x: Entry)
    requires root in es && root.kind.Comment?
    requires forall y :: y in d ==> y in es && y.kind.Comment?
    ensures IsReply(x, CommentIds(es)) && x.parentId.value in [root.id] + Ids(d) <==>
            Answers(x, root.id) || exists y :: y in d && Answers(x, y.id)
  {
    if IsReply(x, CommentIds(es)) && x.parentId.value in Ids(d) {
      var k :| 0 <= k < |d| && Ids(d)[k] == x.parentId.value;
      assert d[k] in d && Answers(x, d[k].id);
    }
    if y :| y in d && Answers(x, y.id) {
      var k :| 0 <= k < |d| && d[k] == y;
      assert Ids(d)[k] == y.id;
    }
  }
}
