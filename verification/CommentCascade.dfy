/** Optimistic comment deletion: the cascade and what it leaves of the threads
    (packages/core/issues/mutations.ts, useDeleteComment). */
module CommentCascade {
  import opened Sequences
  import opened Timeline
  import opened TimelineThread
  import opened ThreadConservation

  /** Whatever replies to a removed entry is removed. */
  predicate ClosedUnderReplies(es: seq<Entry>, removed: set<string>) {
    forall e :: e in es && HasParent(e) && e.parentId.value in removed ==> e.id in removed
  }

  /** The deleted id and all its descendants: the least closed set that holds the id. */
  ghost predicate IsCascade(es: seq<Entry>, root: string, removed: set<string>) {
    && root in removed
    && ClosedUnderReplies(es, removed)
    && forall s: set<string> :: root in s && ClosedUnderReplies(es, s) ==> removed <= s
  }

  lemma CascadeIsUnique(es: seq<Entry>, root: string, a: set<string>, b: set<string>)
    requires IsCascade(es, root, a) && IsCascade(es, root, b)
    ensures a == b
  {
  }

  /** The fixpoint loop; it ends because every pass but the last removes one more of finitely many ids. */
  method CollectCascade(prev: seq<Entry>, commentId: string) returns (toRemove: set<string>)
    ensures IsCascade(prev, commentId, toRemove)
  {
    toRemove := {commentId};
    var changed := true;
    ghost var universe := {commentId} + Elements(Ids(prev));
    while changed
      invariant commentId in toRemove && toRemove <= universe
      invariant forall s: set<string> :: commentId in s && ClosedUnderReplies(prev, s) ==> toRemove <= s
      invariant !changed ==> ClosedUnderReplies(prev, toRemove)
      decreases universe - toRemove, changed
    {
      changed := false;
      ghost var before := toRemove;
      for i := 0 to |prev|
        invariant before <= toRemove <= universe
        invariant forall s: set<string> :: commentId in s && ClosedUnderReplies(prev, s) ==> toRemove <= s
        invariant changed <==> toRemove != before
        invariant !changed ==> ClosedUnderReplies(prev[..i], toRemove)
      {
        var e := prev[i];
        assert prev[..i + 1] == prev[..i] + [e];
        if HasParent(e) && e.parentId.value in toRemove && e.id !in toRemove {
          assert Ids(prev)[i] == e.id;
          toRemove := toRemove + {e.id};
          changed := true;
        }
      }
      assert prev[..|prev|] == prev;
    }
  }

  /** The optimistic write: `old.filter(e => !toRemove.has(e.id))`. */
  function Without(es: seq<Entry>, removed: set<string>): seq<Entry> {
    if es == [] then []
    else
      var e := es[|es| - 1];
      Without(es[..|es| - 1], removed) + (if e.id in removed then [] else [e])
  }

  lemma {:induction false} WithoutMembers(es: seq<Entry>, removed: set<string>, x: Entry)
    ensures x in Without(es, removed) <==> x in es && x.id !in removed
  {
    if es != [] {
      WithoutMembers(es[..|es| - 1], removed, x);
      assert es == es[..|es| - 1] + [es[|es| - 1]];
    }
  }

  method DeleteComment(timeline: seq<Entry>, commentId: string) returns (next: seq<Entry>)
    ensures exists removed :: IsCascade(timeline, commentId, removed) && next == Without(timeline, removed)
  {
    var toRemove := CollectCascade(timeline, commentId);
    next := [];
    for i := 0 to |timeline|
      invariant next == Without(timeline[..i], toRemove)
    {
      assert timeline[..i + 1][..i] == timeline[..i];
      if timeline[i].id !in toRemove {
        next := next + [timeline[i]];
      }
    }
    assert timeline[..|timeline|] == timeline;
    assert IsCascade(timeline, commentId, toRemove);
  }

  /** No survivor replies to a removed entry. */
  lemma NoDanglingReply(es: seq<Entry>, root: string, removed: set<string>, x: Entry)
    requires IsCascade(es, root, removed) && x in Without(es, removed)
    ensures x.parentId.Some? && x.parentId.value != "" ==> x.parentId.value !in removed
  {
    WithoutMembers(es, removed, x);
  }

  /** id hangs below root by a chain of at most n replies. */
  ghost predicate Reaches(es: seq<Entry>, root: string, id: string, n: nat)
    decreases n
  {
    || id == root
    || (n > 0 && exists e :: e in es && e.id == id && HasParent(e) && Reaches(es, root, e.parentId.value, n - 1))
  }

  ghost predicate Below(es: seq<Entry>, root: string, id: string) {
    exists n: nat :: Reaches(es, root, id, n)
  }

  lemma {:induction false} ReachedIsRemoved(es: seq<Entry>, root: string, removed: set<string>, id: string, n: nat)
    requires root in removed && ClosedUnderReplies(es, removed) && Reaches(es, root, id, n)
    ensures id in removed
    decreases n
  {
    if id != root {
      var e :| e in es && e.id == id && HasParent(e) && Reaches(es, root, e.parentId.value, n - 1);
      ReachedIsRemoved(es, root, removed, e.parentId.value, n - 1);
    }
  }

  /** The cascade removes the deleted id and its direct and indirect replies, and nothing else. */
  lemma CascadeMembers(es: seq<Entry>, root: string, removed: set<string>, id: string)
    requires IsCascade(es, root, removed)
    ensures id in removed <==> Below(es, root, id)
  {
    var reached := set x | x in removed && Below(es, root, x);
    assert Reaches(es, root, root, 0);
    forall e | e in es && HasParent(e) && e.parentId.value in reached
      ensures e.id in reached
    {
      var n: nat :| Reaches(es, root, e.parentId.value, n);
      assert Reaches(es, root, e.id, n + 1);
    }
    assert removed <= reached;
    if n: nat :| Reaches(es, root, id, n) {
      ReachedIsRemoved(es, root, removed, id, n);
    }
  }

  // ---------------------------------------------------------------------------
  // Rebuilding the threads from the survivors
  // ---------------------------------------------------------------------------

  lemma SameReplies(es: seq<Entry>, removed: set<string>, x: Entry)
    requires ClosedUnderReplies(es, removed) && x in es && x.id !in removed
    ensures IsReply(x, CommentIds(Without(es, removed))) <==> IsReply(x, CommentIds(es))
  {
    var ids, left := CommentIds(es), CommentIds(Without(es, removed));
    if IsReply(x, ids) {
      var p := FindComment(es, x.parentId.value);
      WithoutMembers(es, removed, p);
      assert p.id in left;
    }
    if IsReply(x, left) {
      var p := FindComment(Without(es, removed), x.parentId.value);
      WithoutMembers(es, removed, p);
    }
  }

  lemma WithoutSnoc(xs: seq<Entry>, e: Entry, removed: set<string>)
    ensures Without(xs + [e], removed) == if e.id in removed then Without(xs, removed) else Without(xs, removed) + [e]
  {
    assert (xs + [e])[..|xs|] == xs;
  }

  lemma TopLevelSnoc(xs: seq<Entry>, e: Entry, ids: set<string>)
    ensures TopLevel(xs + [e], ids) == if IsReply(e, ids) then TopLevel(xs, ids) else TopLevel(xs, ids) + [e]
  {
    assert (xs + [e])[..|xs|] == xs;
  }

  lemma KidsSnoc(xs: seq<Entry>, e: Entry, ids: set<string>, parent: string)
    ensures Kids(xs + [e], ids, parent)
         == if IsReply(e, ids) && e.parentId.value == parent then Kids(xs, ids, parent) + [e] else Kids(xs, ids, parent)
  {
    assert (xs + [e])[..|xs|] == xs;
  }

  /** On the survivors, `left` and `all` call the same entries replies. */
  ghost predicate Agree(es: seq<Entry>, all: set<string>, left: set<string>, removed: set<string>) {
    forall x :: x in es && x.id !in removed ==> (IsReply(x, left) <==> IsReply(x, all))
  }

  lemma {:induction false} TopLevelSurvives(es: seq<Entry>, all: set<string>, left: set<string>, removed: set<string>)
    requires Agree(es, all, left, removed)
    ensures TopLevel(Without(es, removed), left) == Without(TopLevel(es, all), removed)
  {
    if es != [] {
      var front, e := es[..|es| - 1], es[|es| - 1];
      assert es == front + [e];
      TopLevelSurvives(front, all, left, removed);
      WithoutSnoc(front, e, removed);
      TopLevelSnoc(front, e, all);
      TopLevelSnoc(Without(front, removed), e, left);
      WithoutSnoc(TopLevel(front, all), e, removed);
    }
  }

  lemma {:induction false} KidsSurvive(es: seq<Entry>, all: set<string>, left: set<string>, removed: set<string>,
      parent: string)
    requires Agree(es, all, left, removed)
    ensures Kids(Without(es, removed), left, parent) == Without(Kids(es, all, parent), removed)
  {
    if es != [] {
      var front, e := es[..|es| - 1], es[|es| - 1];
      assert es == front + [e];
      KidsSurvive(front, all, left, removed, parent);
      WithoutSnoc(front, e, removed);
      KidsSnoc(front, e, all, parent);
      KidsSnoc(Without(front, removed), e, left, parent);
      WithoutSnoc(Kids(front, all, parent), e, removed);
    }
  }

  lemma {:induction false} WithoutAppend(a: seq<Entry>, b: seq<Entry>, removed: set<string>)
    ensures Without(a + b, removed) == Without(a, removed) + Without(b, removed)
  {
    if b == [] {
      assert a + b == a;
    } else {
      var front, e := b[..|b| - 1], b[|b| - 1];
      assert b == front + [e] && a + b == (a + front) + [e];
      WithoutAppend(a, front, removed);
      WithoutSnoc(a + front, e, removed);
      WithoutSnoc(front, e, removed);
    }
  }

  lemma {:induction false} AllGone(xs: seq<Entry>, removed: set<string>)
    requires forall x :: x in xs ==> x.id in removed
    ensures Without(xs, removed) == []
  {
    if xs != [] {
      AllGone(xs[..|xs| - 1], removed);
    }
  }

  /** Removing from a generation and removing from its parents come to the same. */
  lemma {:induction false} FamiliesSurvive(es: seq<Entry>, left: set<string>, removed: set<string>, parents: seq<Entry>)
    requires Agree(es, CommentIds(es), left, removed) && ClosedUnderReplies(es, removed)
    ensures KidsOf(Without(es, removed), left, Ids(Without(parents, removed)))
         == Without(KidsOf(es, CommentIds(es), Ids(parents)), removed)
  {
    hide Kids, Agree, Without;
    var all, s := CommentIds(es), Without(es, removed);
    if parents == [] {
      NothingLeft(removed);
      assert Ids(parents) == [] && Ids(Without(parents, removed)) == [];
    } else {
      var front, p := parents[..|parents| - 1], parents[|parents| - 1];
      assert parents == front + [p];
      FamiliesSurvive(es, left, removed, front);
      KidsOfIdsSnoc(es, all, front, p);
      WithoutAppend(KidsOf(es, all, Ids(front)), Kids(es, all, p.id), removed);
      WithoutSnoc(front, p, removed);
      if p.id in removed {
        forall x | x in Kids(es, all, p.id)
          ensures x.id in removed
        {
          KidsMembers(es, all, p.id, x);
        }
        AllGone(Kids(es, all, p.id), removed);
      } else {
        KidsOfIdsSnoc(s, left, Without(front, removed), p);
        KidsSurvive(es, all, left, removed, p.id);
      }
    }
  }

  lemma NothingLeft(removed: set<string>)
    ensures Without([], removed) == []
  {
  }

  lemma KidsOfIdsSnoc(es: seq<Entry>, ids: set<string>, front: seq<Entry>, p: Entry)
    ensures KidsOf(es, ids, Ids(front + [p])) == KidsOf(es, ids, Ids(front)) + Kids(es, ids, p.id)
  {
    assert Ids(front + [p]) == Ids(front) + [p.id];
    assert (Ids(front) + [p.id])[..|front|] == Ids(front);
  }

  lemma {:induction false} GenerationSurvives(es: seq<Entry>, removed: set<string>, root: Entry, k: nat)
    requires ClosedUnderReplies(es, removed) && root.id !in removed
    ensures Generation(Without(es, removed), root.id, k) == Without(Generation(es, root.id, k), removed)
  {
    hide Without, KidsOf;
    AgreeOnSurvivors(es, removed);
    var left := CommentIds(Without(es, removed));
    if k == 0 {
      NothingLeft(removed);
    } else if k == 1 {
      assert Ids([root]) == [root.id];
      NothingLeft(removed);
      WithoutSnoc([], root, removed);
      assert [] + [root] == [root];
      FamiliesSurvive(es, left, removed, [root]);
    } else {
      GenerationSurvives(es, removed, root, k - 1);
      FamiliesSurvive(es, left, removed, Generation(es, root.id, k - 1));
    }
  }

  lemma AgreeOnSurvivors(es: seq<Entry>, removed: set<string>)
    requires ClosedUnderReplies(es, removed)
    ensures Agree(es, CommentIds(es), CommentIds(Without(es, removed)), removed)
  {
    forall x | x in es && x.id !in removed {
      SameReplies(es, removed, x);
    }
  }

  lemma {:induction false} GenerationsSurvive(es: seq<Entry>, removed: set<string>, root: Entry, n: nat)
    requires ClosedUnderReplies(es, removed) && root.id !in removed
    ensures Generations(Without(es, removed), root.id, n) == Without(Generations(es, root.id, n), removed)
  {
    hide Without, Generation;
    if n == 0 {
      NothingLeft(removed);
    } else {
      GenerationsSurvive(es, removed, root, n - 1);
      GenerationSurvives(es, removed, root, n);
      WithoutAppend(Generations(es, root.id, n - 1), Generation(es, root.id, n), removed);
    }
  }

  lemma {:induction false} SurvivorsUnique(es: seq<Entry>, removed: set<string>)
    requires UniqueComments(es)
    ensures UniqueComments(Without(es, removed)) && |Without(es, removed)| <= |es|
  {
    if es != [] {
      var front, e := es[..|es| - 1], es[|es| - 1];
      SurvivorsUnique(front, removed);
      var w := Without(front, removed);
      forall i | 0 <= i < |w| && w[i].kind.Comment? && e.kind.Comment?
        ensures w[i].id != e.id
      {
        WithoutMembers(front, removed, w[i]);
      }
    }
  }

  /** Rebuilding after the deletion gives the old rows: the rows of removed entries are gone, each
      other row keeps its entry and loses exactly the removed replies, and no row is new. */
  function RowsWithout(rows: seq<Row>, removed: set<string>): seq<Row> {
    if rows == [] then []
    else
      var row := rows[|rows| - 1];
      RowsWithout(rows[..|rows| - 1], removed)
      + (if row.entry.id in removed then [] else [Row(row.entry, Without(row.replies, removed))])
  }

  lemma RowSurvives(es: seq<Entry>, removed: set<string>, t: Entry)
    requires UniqueComments(es) && ClosedUnderReplies(es, removed)
    requires t in es && !IsReply(t, CommentIds(es)) && t.id !in removed
    ensures RowOf(Without(es, removed), t) == Row(t, Without(RowOf(es, t).replies, removed))
  {
    hide Without, Generations, Generation;
    var s := Without(es, removed);
    NothingLeft(removed);
    if t.kind.Comment? {
      SurvivorsUnique(es, removed);
      WithoutMembers(es, removed, t);
      SameReplies(es, removed, t);
      GenerationsSurvive(es, removed, t, |es|);
      AllGenerations(s, t, |es|);
    }
  }

  lemma {:induction false} RowsSurvive(es: seq<Entry>, removed: set<string>, top: seq<Entry>)
    requires UniqueComments(es) && ClosedUnderReplies(es, removed)
    requires forall t :: t in top ==> t in es && !IsReply(t, CommentIds(es))
    ensures RowsFor(Without(es, removed), Without(top, removed)) == RowsWithout(RowsFor(es, top), removed)
  {
    hide RowOf, Without;
    var s := Without(es, removed);
    if top == [] {
      NothingLeft(removed);
    } else {
      var front, t := top[..|top| - 1], top[|top| - 1];
      assert top == front + [t];
      RowsSurvive(es, removed, front);
      WithoutSnoc(front, t, removed);
      var rows := RowsFor(es, top);
      assert rows[..|rows| - 1] == RowsFor(es, front);
      assert rows[|rows| - 1].entry == t by { RowEntry(es, t); }
      if t.id !in removed {
        RowSurvives(es, removed, t);
        assert RowsFor(s, Without(front, removed) + [t]) == RowsFor(s, Without(front, removed)) + [RowOf(s, t)];
      }
    }
  }

  lemma RowEntry(es: seq<Entry>, t: Entry)
    ensures RowOf(es, t).entry == t
  {
  }

  lemma DeletionKeepsThreads(es: seq<Entry>, root: string, removed: set<string>)
    requires UniqueComments(es) && IsCascade(es, root, removed)
    ensures Rows(Without(es, removed)) == RowsWithout(Rows(es), removed)
  {
    hide Without, RowOf, RowsWithout;
    var ids, left := CommentIds(es), CommentIds(Without(es, removed));
    var top := TopLevel(es, ids);
    AgreeOnSurvivors(es, removed);
    TopLevelSurvives(es, ids, left, removed);
    forall t | t in top
      ensures t in es && !IsReply(t, ids)
    {
      TopLevelMembers(es, ids, t);
    }
    RowsSurvive(es, removed, top);
    assert Rows(es) == RowsFor(es, top);
    assert Rows(Without(es, removed)) == RowsFor(Without(es, removed), Without(top, removed));
  }
}
