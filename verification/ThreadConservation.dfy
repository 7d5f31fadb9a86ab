/** Which entries the thread builder shows: exactly those whose parent chain ends, each once
    (apps/mobile/lib/timeline-thread.ts). */
module ThreadConservation {
  import opened Text
  import opened Sequences
  import opened Timeline
  import opened TimelineThread

  /** Everything the rows show, in order. */
  function Shown(rows: seq<Row>): seq<Entry> {
    if rows == [] then []
    else var row := rows[|rows| - 1]; Shown(rows[..|rows| - 1]) + ([row.entry] + row.replies)
  }

  lemma {:induction false} CountDistinct<T>(xs: seq<T>, x: T)
    requires Distinct(xs)
    ensures multiset(xs)[x] == if x in xs then 1 else 0
  {
    if xs != [] {
      var front, last := xs[..|xs| - 1], xs[|xs| - 1];
      assert xs == front + [last];
      CountDistinct(front, x);
    }
  }

  lemma {:induction false} TopLevelCount(es: seq<Entry>, ids: set<string>, x: Entry)
    ensures multiset(TopLevel(es, ids))[x] == if IsReply(x, ids) then 0 else multiset(es)[x]
  {
    if es != [] {
      var front, e := es[..|es| - 1], es[|es| - 1];
      assert es == front + [e];
      TopLevelCount(front, ids, x);
    }
  }

  lemma {:induction false} CommentCount(es: seq<Entry>, x: Entry)
    requires UniqueComments(es) && x.kind.Comment? && x in es
    ensures multiset(es)[x] == 1
  {
    var front, e := es[..|es| - 1], es[|es| - 1];
    assert es == front + [e];
    if x == e {
      assert x !in front;
      assert multiset(front)[x] == 0;
    } else {
      CommentCount(front, x);
    }
  }

  /** A parent is a comment, so nothing hangs below an activity. */
  lemma {:induction false} AncestorsAreComments(es: seq<Entry>, x: Entry, k: nat)
    requires k > 0 && Climb(es, x, k).Some?
    ensures Climb(es, x, k).value.kind.Comment? && IsReply(x, CommentIds(es))
    decreases k
  {
    if k > 1 {
      AncestorsAreComments(es, FindComment(es, x.parentId.value), k - 1);
    }
  }

  lemma RowCount(es: seq<Entry>, t: Entry, x: Entry)
    requires UniqueComments(es) && t in es && !IsReply(t, CommentIds(es))
    ensures multiset([t] + RowOf(es, t).replies)[x] == (if x == t then 1 else 0) + (if Under(es, t, x) then 1 else 0)
  {
    hide Descendants;
    var replies := RowOf(es, t).replies;
    assert multiset([t] + replies) == multiset{t} + multiset(replies);
    if t.kind.Comment? {
      DescendantsMembers(es, t, x);
      assert replies == Descendants(es, t.id);
      CountDistinct(replies, x);
    } else if k: nat :| k > 0 && Climb(es, x, k) == Some(t) {
      AncestorsAreComments(es, x, k);
    }
  }

  lemma OneRoot(es: seq<Entry>, s: Entry, t: Entry, x: Entry)
    requires Under(es, s, x) && Under(es, t, x)
    requires !IsReply(s, CommentIds(es)) && !IsReply(t, CommentIds(es))
    ensures s == t
  {
    var j: nat :| j > 0 && Climb(es, x, j) == Some(s);
    var k: nat :| k > 0 && Climb(es, x, k) == Some(t);
    if j < k {
      NothingAbove(es, x, j, k);
    } else if k < j {
      NothingAbove(es, x, k, j);
    }
  }

  function RowsFor(es: seq<Entry>, top: seq<Entry>): (rows: seq<Row>)
    ensures |rows| == |top|
  {
    seq(|top|, i requires 0 <= i < |top| => RowOf(es, top[i]))
  }

  lemma ShownSnoc(es: seq<Entry>, top: seq<Entry>)
    requires top != []
    ensures var front, t := top[..|top| - 1], top[|top| - 1];
      Shown(RowsFor(es, top)) == Shown(RowsFor(es, front)) + ([t] + RowOf(es, t).replies)
  {
    hide Descendants;
    var rows, front := RowsFor(es, top), top[..|top| - 1];
    assert rows[..|rows| - 1] == RowsFor(es, front);
  }

  /** With x below the root r, the rows show x once for itself and once for r. */
  lemma {:induction false} ShownCountUnder(es: seq<Entry>, top: seq<Entry>, x: Entry, r: Entry)
    requires UniqueComments(es) && Under(es, r, x) && !IsReply(r, CommentIds(es))
    requires forall t :: t in top ==> t in es && !IsReply(t, CommentIds(es))
    ensures multiset(Shown(RowsFor(es, top)))[x] == multiset(top)[x] + multiset(top)[r]
  {
    hide Under, RowOf;
    if top != [] {
      var front, t := top[..|top| - 1], top[|top| - 1];
      assert top == front + [t];
      ShownCountUnder(es, front, x, r);
      ShownSnoc(es, top);
      RowCount(es, t, x);
      if Under(es, t, x) {
        OneRoot(es, r, t, x);
      }
    }
  }

  lemma {:induction false} ShownCountAlone(es: seq<Entry>, top: seq<Entry>, x: Entry)
    requires UniqueComments(es)
    requires forall t :: t in top ==> t in es && !IsReply(t, CommentIds(es)) && !Under(es, t, x)
    ensures multiset(Shown(RowsFor(es, top)))[x] == multiset(top)[x]
  {
    hide Under, RowOf;
    if top != [] {
      var front, t := top[..|top| - 1], top[|top| - 1];
      assert top == front + [t];
      ShownCountAlone(es, front, x);
      ShownSnoc(es, top);
      RowCount(es, t, x);
    }
  }

  /** Whatever the parents are, cyclic ones included: an entry is shown as often as it was given
      when its parent chain reaches a top-level entry, and not at all otherwise. */
  lemma ShownExactlyWhenAnchored(es: seq<Entry>, x: Entry)
    requires UniqueComments(es)
    ensures multiset(Shown(Rows(es)))[x] == if Anchored(es, x) then multiset(es)[x] else 0
  {
    hide RowOf, FindComment;
    var ids := CommentIds(es);
    var top := TopLevel(es, ids);
    assert Rows(es) == RowsFor(es, top);
    forall t | t in top
      ensures t in es && !IsReply(t, ids)
    {
      TopLevelMembers(es, ids, t);
    }
    TopLevelCount(es, ids, x);
    if r :| r in top && Under(es, r, x) {
      ShownCountUnder(es, top, x, r);
      var k: nat :| k > 0 && Climb(es, x, k) == Some(r);
      AncestorsAreComments(es, x, k);
      assert Anchored(es, x);
      CommentCount(es, x);
      TopLevelCount(es, ids, r);
      CommentCount(es, r);
    } else {
      ShownCountAlone(es, top, x);
      NotUnderMeansNotAnchored(es, x);
    }
  }

  lemma NotUnderMeansNotAnchored(es: seq<Entry>, x: Entry)
    requires forall t :: t in TopLevel(es, CommentIds(es)) ==> !Under(es, t, x)
    ensures x in es && IsReply(x, CommentIds(es)) ==> !Anchored(es, x)
    ensures !IsReply(x, CommentIds(es)) ==> Anchored(es, x)
  {
    if !IsReply(x, CommentIds(es)) {
      assert Climb(es, x, 0) == Some(x);
    } else if x in es && Anchored(es, x) {
      var k: nat :| Climb(es, x, k).Some? && !IsReply(Climb(es, x, k).value, CommentIds(es));
      ClimbStays(es, x, k);
      TopLevelMembers(es, CommentIds(es), Climb(es, x, k).value);
      assert Under(es, Climb(es, x, k).value, x);
    }
  }

  // ---------------------------------------------------------------------------
  // "Counts must agree", exactly when parents are acyclic
  // ---------------------------------------------------------------------------

  lemma {:induction false} AroundTheCycle(es: seq<Entry>, e: Entry, k: nat, m: nat)
    requires k > 0 && Climb(es, e, k) == Some(e)
    ensures Climb(es, e, m).Some? && IsReply(Climb(es, e, m).value, CommentIds(es))
    decreases m
  {
    if m >= k {
      ClimbAdd(es, e, k, m - k);
      AroundTheCycle(es, e, k, m - k);
    } else {
      ClimbDefinedBelow(es, e, m, k);
      ClimbAdd(es, e, m, k - m);
    }
  }

  lemma {:induction false} ClimbDefinedBelow(es: seq<Entry>, e: Entry, m: nat, k: nat)
    requires m <= k && Climb(es, e, k).Some?
    ensures Climb(es, e, m).Some?
    decreases m
  {
    if m > 0 {
      ClimbDefinedBelow(es, FindComment(es, e.parentId.value), m - 1, k - 1);
    }
  }

  /** e and its first n ancestors. */
  function Chain(es: seq<Entry>, e: Entry, n: nat): (chain: seq<Entry>)
    requires forall k: nat :: k <= n ==> Climb(es, e, k).Some?
    ensures |chain| == n + 1
    ensures forall k :: 0 <= k <= n ==> chain[k] == Climb(es, e, k).value
  {
    seq(n + 1, k requires 0 <= k <= n => Climb(es, e, k).value)
  }

  lemma {:induction false} UnanchoredClimbsForever(es: seq<Entry>, e: Entry, k: nat)
    requires !Anchored(es, e)
    ensures Climb(es, e, k).Some?
  {
    if k > 0 {
      UnanchoredClimbsForever(es, e, k - 1);
      ClimbAdd(es, e, k - 1, 1);
    }
  }

  /** An endless chain visits some entry twice. */
  lemma UnanchoredMeetsCycle(es: seq<Entry>, e: Entry)
    requires e in es && !Anchored(es, e)
    ensures !Acyclic(es)
  {
    hide Climb;
    var n := |es|;
    forall k: nat | k <= n
      ensures Climb(es, e, k).Some? && Climb(es, e, k).value in es
    {
      UnanchoredClimbsForever(es, e, k);
      ClimbStays(es, e, k);
    }
    var chain := Chain(es, e, n);
    if Distinct(chain) {
      DistinctWithin(chain, es);
    } else {
      var i, j :| 0 <= i < j < |chain| && chain[i] == chain[j];
      ClimbAdd(es, e, i, j - i);
      assert chain[i] in es && Climb(es, chain[i], j - i) == Some(chain[i]);
    }
  }

  /** The rows show each loaded entry, no more and no less, if and only if no comment is its own
      ancestor: an entry on a cycle, or below one, silently disappears. */
  lemma CountsAgreeIffAcyclic(es: seq<Entry>)
    requires UniqueComments(es)
    ensures multiset(Shown(Rows(es))) == multiset(es) <==> Acyclic(es)
  {
    hide Climb, Rows, Shown;
    forall x
      ensures multiset(Shown(Rows(es)))[x] == if Anchored(es, x) then multiset(es)[x] else 0
    {
      ShownExactlyWhenAnchored(es, x);
    }
    if Acyclic(es) {
      forall x | x in es
        ensures Anchored(es, x)
      {
        if !Anchored(es, x) {
          UnanchoredMeetsCycle(es, x);
        }
      }
      assert forall x :: x in multiset(es) ==> x in es;
      assert multiset(Shown(Rows(es))) == multiset(es);
    } else {
      var e, k: nat :| e in es && k > 0 && Climb(es, e, k) == Some(e);
      forall m: nat
        ensures Climb(es, e, m).Some? && IsReply(Climb(es, e, m).value, CommentIds(es))
      {
        AroundTheCycle(es, e, k, m);
      }
      assert !Anchored(es, e);
      assert multiset(es)[e] > 0 && multiset(Shown(Rows(es)))[e] == 0;
    }
  }

  /** Two comments that answer each other come out in no row at all. */
  lemma MutualRepliesVanish(a: Entry, b: Entry)
    requires a.kind.Comment? && b.kind.Comment? && a.id != b.id && a.id != "" && b.id != ""
    requires a.parentId == Some(b.id) && b.parentId == Some(a.id)
    ensures UniqueComments([a, b]) && Shown(Rows([a, b])) == []
  {
    var es := [a, b];
    var ids := CommentIds(es);
    assert a in es && b in es;
    assert es[..1] == [a] && [a][..0] == [];
    assert TopLevel([a], ids) == [];
    assert TopLevel(es, ids) == [];
    assert Rows(es) == [];
  }

  // ---------------------------------------------------------------------------
  // Why comment ids must be unique
  // ---------------------------------------------------------------------------

  /** The search queue after n steps. */
  function QueueAfter(es: seq<Entry>, queue: seq<string>, n: nat): seq<string>
    decreases n
  {
    if n == 0 || queue == [] then queue
    else QueueAfter(es, queue[1..] + Ids(Kids(es, CommentIds(es), queue[0])), n - 1)
  }

  /** A root and a reply that carry one id keep the search running for ever. */
  lemma {:induction false} SharedIdNeverFinishes(root: Entry, reply: Entry, n: nat)
    requires root.kind.Comment? && reply.kind.Comment? && root.id == reply.id != ""
    requires root.parentId == None && reply.parentId == Some(root.id)
    ensures QueueAfter([root, reply], [root.id], n) == [root.id]
  {
    if n > 0 {
      var es := [root, reply];
      var ids := CommentIds(es);
      assert root in es;
      assert root.id in ids;
      assert es[..1] == [root] && [root][..0] == [];
      assert Kids([root], ids, root.id) == [];
      assert Kids(es, ids, root.id) == [reply];
      assert [root.id][1..] + Ids([reply]) == [root.id];
      SharedIdNeverFinishes(root, reply, n - 1);
    }
  }
}
