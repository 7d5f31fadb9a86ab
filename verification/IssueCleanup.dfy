/** What deleting and cleaning up issues reads and writes, key by key
    (packages/core/issues/delete-cache.ts, packages/core/issues/mutations.ts). */
module IssueCleanup {
  import opened Text
  import opened IssueBuckets
  import opened IssueEdits
  import opened QueryCache
  import opened IssueMutations
  import opened IssueEvents
  import opened DeleteCache
  import opened IssueDeletes

  /** A key that begins with one of the issue's own keys. */
  predicate IsOwn(k: Key, ws: string, id: string) {
    || (|k| >= 4 && k[0] == Str("issues") && k[1] == Str(ws) && (k[2] == Str("detail") || k[2] == Str("children"))
        && k[3] == Str(id))
    || (|k| >= 3 && k[0] == Str("issues") && k[2] == Str(id)
        && (k[1] == Str("timeline") || k[1] == Str("reactions") || k[1] == Str("subscribers") || k[1] == Str("usage")
            || k[1] == Str("attachments") || k[1] == Str("tasks")))
    || (|k| >= 4 && k[0] == Str("labels") && k[1] == Str(ws) && k[2] == Str("issue") && k[3] == Str(id))
  }

  lemma OwnPrefixesAre(k: Key, ws: string, id: string)
    ensures (exists i :: 0 <= i < |OwnPrefixes(ws, id)| && OwnPrefixes(ws, id)[i] <= k) <==> IsOwn(k, ws, id)
  {
    var own := OwnPrefixes(ws, id);
    assert |own| == 9;
    assert own[0] == [Str("issues"), Str(ws), Str("detail"), Str(id)];
    assert own[7] == [Str("issues"), Str(ws), Str("children"), Str(id)];
    FirstFour(k, own[0]);
    FirstFour(k, own[7]);
    FirstFour(k, own[8]);
    FirstThree(k, own[1]);
    FirstThree(k, own[2]);
    FirstThree(k, own[3]);
    FirstThree(k, own[4]);
    FirstThree(k, own[5]);
    FirstThree(k, own[6]);
  }

  lemma FirstFour(k: Key, own: Key)
    requires |own| == 4
    ensures own <= k <==> |k| >= 4 && k[0] == own[0] && k[1] == own[1] && k[2] == own[2] && k[3] == own[3]
  {
  }

  lemma FirstThree(k: Key, own: Key)
    requires |own| == 3
    ensures own <= k <==> |k| >= 3 && k[0] == own[0] && k[1] == own[1] && k[2] == own[2]
  {
  }

  /** A list, a my-issues list, or the children cache of one of the parents. */
  predicate IsPruned(k: Key, ws: string, parents: set<string>) {
    && |k| >= 3 && k[0] == Str("issues") && k[1] == Str(ws)
    && (|| k[2] == Str("list")
        || k[2] == Str("my")
        || (k[2] == Str("children") && |k| == 4 && k[3].Str? && k[3].s in parents))
  }

  lemma PrunedKeysAre(c: Store, ws: string, parents: set<string>, k: Key)
    ensures k in c && k in ListKeys(c, ws) + ChildrenKeys(ws, parents) <==> k in c && IsPruned(k, ws, parents)
  {
    FirstThree(k, ListPrefix(ws));
    FirstThree(k, MyPrefix(ws));
    if k in ChildrenKeys(ws, parents) {
      var p :| p in parents && k == ChildrenKey(ws, p);
      assert k == [Str("issues"), Str(ws), Str("children"), Str(p)];
    }
    if IsPruned(k, ws, parents) && k[2] == Str("children") {
      assert k == ChildrenKey(ws, k[3].s);
    }
  }

  lemma {:induction false} FilterLaws(a: seq<Issue>, b: seq<Issue>, id: string, i: Issue)
    ensures Without(a + b, id) == Without(a, id) + Without(b, id)
    ensures Without([], id) == [] && Without([i], id) == if i.id == id then [] else [i]
  {
    if a == [] {
      assert a + b == b;
    } else {
      assert (a + b)[1..] == a[1..] + b;
      FilterLaws(a[1..], b, id, i);
    }
  }

  /** After cleanup exactly the issue's own entries are gone. The lists and the parents' children lack the issue and
      are otherwise the same; every other entry is untouched. */
  lemma CleanupWrites(c: Store, ws: string, id: string, parents: set<string>, k: Key)
    ensures var d := Cleaned(c, ws, id, parents);
            && (k in d <==> k in c && !IsOwn(k, ws, id))
            && (k in d && !IsPruned(k, ws, parents) ==> d[k] == c[k])
            && (k in d && IsPruned(k, ws, parents) && c[k].Buckets? ==> d[k] == Buckets(RemoveIssue(c[k].list, id)))
            && (k in d && IsPruned(k, ws, parents) && c[k].IssueList? ==> d[k] == IssueList(Without(c[k].issues, id)))
  {
    hide OwnPrefixes, ListKeys, ChildrenKeys, IsOwn, IsPruned, RemoveIssue, Without;
    OwnPrefixesAre(k, ws, id);
    PrunedKeysAre(c, ws, parents, k);
  }

  // ---------------------------------------------------------------------------
  // Where the parents come from
  // ---------------------------------------------------------------------------

  ghost predicate ParentInList(c: Store, ws: string, id: string, p: string) {
    exists k, s, n: nat ::
      && k in c && (ListPrefix(ws) <= k || MyPrefix(ws) <= k) && c[k].Buckets?
      && Stands(c[k].list, id, s, n) && c[k].list[s].issues[n].parentId == Some(p)
  }

  /** The first issue of that id in a children cache names the parent, or the cache's key does. */
  ghost predicate ChildrenEntryNames(k: Key, data: Data, id: string, p: string)
    requires k != []
  {
    data.IssueList? &&
      exists n: nat ::
        && n < |data.issues| && data.issues[n].id == id && (forall m :: 0 <= m < n ==> data.issues[m].id != id)
        && (data.issues[n].parentId == Some(p) || k[|k| - 1] == Str(p))
  }

  ghost predicate ParentInChildren(c: Store, ws: string, id: string, p: string) {
    exists k :: k in c && ChildrenPrefix(ws) <= k && ChildrenEntryNames(k, c[k], id, p)
  }

  /** The collected parents are the non-empty ones that the detail, a list, a my-issues list or a children cache
      names for the issue, or that have it among their loaded children. */
  lemma ParentsAre(c: Store, ws: string, id: string, p: string)
    requires CoherentLists(c)
    ensures p in Parents(c, ws, id) <==>
            p != "" && (|| (DetailKey(ws, id) in c && c[DetailKey(ws, id)].Detail?
                            && c[DetailKey(ws, id)].issue.parentId == Some(p))
                        || ParentInList(c, ws, id, p)
                        || ParentInChildren(c, ws, id, p))
  {
    hide DetailKey, ListPrefix, MyPrefix, ChildrenPrefix, ParentInList, ParentInChildren;
    InLists(c, ws, id, p);
    InChildren(c, ws, id, p);
    hide OfLists, OfChildren, CoherentLists;
  }

  lemma ListEntryNames(c: Store, k: Key, id: string, p: string)
    requires CoherentLists(c) && k in c
    ensures p in OfListEntry(c[k], id) <==>
            p != "" && c[k].Buckets?
            && exists s, n: nat :: Stands(c[k].list, id, s, n) && c[k].list[s].issues[n].parentId == Some(p)
  {
    if c[k].Buckets? {
      var list := c[k].list;
      NotLocated(list, id);
      hide Locate, Coherent;
      if Locate(list, id).Some? {
        var s, n := LocatedStands(list, id);
      }
      forall s, n: nat | Stands(list, id, s, n)
        ensures Locate(list, id) == Some(Location(s, list[s].issues[n]))
      {
        StandsOnce(list, id, s, n);
      }
    }
  }

  lemma InLists(c: Store, ws: string, id: string, p: string)
    requires CoherentLists(c)
    ensures p in OfLists(c, ListPrefix(ws), id) + OfLists(c, MyPrefix(ws), id) <==>
            p != "" && ParentInList(c, ws, id, p)
  {
    hide ListPrefix, MyPrefix, CoherentLists, OfListEntry;
    forall k | k in c
      ensures p in OfListEntry(c[k], id) <==>
              p != "" && c[k].Buckets?
              && exists s, n: nat :: Stands(c[k].list, id, s, n) && c[k].list[s].issues[n].parentId == Some(p)
    {
      ListEntryNames(c, k, id, p);
    }
  }

  lemma {:induction false} FirstFound(issues: seq<Issue>, id: string) returns (n: nat)
    ensures Find(issues, id).Some? ==> n < |issues| && Find(issues, id) == Some(issues[n]) && issues[n].id == id
    ensures Find(issues, id).Some? ==> forall m :: 0 <= m < n ==> issues[m].id != id
  {
    n := 0;
    if issues != [] && issues[0].id != id {
      var rest := FirstFound(issues[1..], id);
      n := rest + 1;
    }
  }

  lemma InChildren(c: Store, ws: string, id: string, p: string)
    ensures p in OfChildren(c, ws, id) <==> p != "" && ParentInChildren(c, ws, id, p)
  {
    assert |ChildrenPrefix(ws)| > 0;
    hide ChildrenPrefix;
    forall k | k in c && ChildrenPrefix(ws) <= k
      ensures p in OfChildrenEntry(k, c[k], id) <==> p != "" && ChildrenEntryNames(k, c[k], id, p)
    {
      ChildrenEntry(k, c[k], id, p);
    }
    hide OfChildrenEntry, ChildrenEntryNames;
    if p in OfChildren(c, ws, id) {
      var k :| k in KeysUnder(c, ChildrenPrefix(ws)) && p in OfChildrenEntry(k, c[k], id);
      assert ChildrenEntryNames(k, c[k], id, p);
    }
    if p != "" && ParentInChildren(c, ws, id, p) {
      var k :| k in c && ChildrenPrefix(ws) <= k && ChildrenEntryNames(k, c[k], id, p);
      assert k in KeysUnder(c, ChildrenPrefix(ws));
    }
  }

  lemma ChildrenEntry(k: Key, data: Data, id: string, p: string)
    requires k != []
    ensures p in OfChildrenEntry(k, data, id) <==> p != "" && ChildrenEntryNames(k, data, id, p)
  {
    if data.IssueList? {
      var n := FirstFound(data.issues, id);
      hide Find;
      if ChildrenEntryNames(k, data, id, p) {
        var m: nat :| m < |data.issues| && data.issues[m].id == id
          && (forall l :: 0 <= l < m ==> data.issues[l].id != id)
          && (data.issues[m].parentId == Some(p) || k[|k| - 1] == Str(p));
        assert data.issues[m] in data.issues;
        assert m == n;
      }
    }
  }

  // ---------------------------------------------------------------------------
  // The optimistic deletes
  // ---------------------------------------------------------------------------

  predicate IsDetail(k: Key, ws: string, id: string) {
    |k| >= 4 && k[0] == Str("issues") && k[1] == Str(ws) && k[2] == Str("detail") && k[3] == Str(id)
  }

  lemma DetailKeyIs(k: Key, ws: string, id: string)
    ensures DetailKey(ws, id) <= k <==> IsDetail(k, ws, id)
  {
    assert DetailKey(ws, id) == [Str("issues"), Str(ws), Str("detail"), Str(id)];
    FirstFour(k, DetailKey(ws, id));
  }

  /** The optimistic delete: the detail is gone with all that extends its key; lists and parents' children lack the
      issue; every other entry is untouched. */
  lemma DeleteWrites(c: Store, d: Store, ws: string, id: string, ctx: DeleteContext, k: Key)
    requires Deleted(c, d, ws, id, ctx)
    ensures k in d <==> k in c && !IsDetail(k, ws, id)
    ensures k in d && !IsPruned(k, ws, Parents(c, ws, id)) ==> d[k] == c[k]
    ensures k in d && IsPruned(k, ws, Parents(c, ws, id)) && c[k].Buckets? ==>
              d[k] == Buckets(RemoveIssue(c[k].list, id))
    ensures k in d && IsPruned(k, ws, Parents(c, ws, id)) && c[k].IssueList? ==>
              d[k] == IssueList(Without(c[k].issues, id))
  {
    hide Deleted, ListKeys, ChildrenKeys, IsPruned, IsDetail, RemoveIssue, Without, Parents, DetailKey;
    DetailKeyIs(k, ws, id);
    PrunedKeysAre(c, ws, Parents(c, ws, id), k);
    DeletedEntry(c, d, ws, id, ctx, k);
  }

  lemma DeletedEntry(c: Store, d: Store, ws: string, id: string, ctx: DeleteContext, k: Key)
    requires Deleted(c, d, ws, id, ctx)
    ensures k in d <==> k in c && !(DetailKey(ws, id) <= k)
    ensures k in d && k in ListKeys(c, ws) + ChildrenKeys(ws, Parents(c, ws, id)) ==> d[k] == Edited(Prune(id), c[k])
    ensures k in d && k !in ListKeys(c, ws) + ChildrenKeys(ws, Parents(c, ws, id)) ==> d[k] == c[k]
  {
    hide ListKeys, ChildrenKeys, Parents, DetailKey, Snapshot, ChildrenSnapshot, Edited;
  }

  function WithoutAll(issues: seq<Issue>, ids: seq<string>): seq<Issue> {
    if ids == [] then issues else Without(WithoutAll(issues, ids[..|ids| - 1]), ids[|ids| - 1])
  }

  lemma {:induction false} WithoutAllMembers(issues: seq<Issue>, ids: seq<string>, i: Issue)
    ensures i in WithoutAll(issues, ids) <==> i in issues && i.id !in ids
  {
    hide Without;
    if ids != [] {
      WithoutAllMembers(issues, ids[..|ids| - 1], i);
      WithoutMembers(WithoutAll(issues, ids[..|ids| - 1]), ids[|ids| - 1]);
      assert ids == ids[..|ids| - 1] + [ids[|ids| - 1]];
    }
  }

  lemma EachStep(c: Store, ws: string, ids: seq<string>, k: Key)
    requires ids != [] && k in c && k in PrunedEach(c, ws, ids[..|ids| - 1])
    ensures var id := ids[|ids| - 1];
            var before := PrunedEach(c, ws, ids[..|ids| - 1])[k];
            && k in PrunedEach(c, ws, ids)
            && PrunedEach(c, ws, ids)[k]
               == if IsPruned(k, ws, Parents(c, ws, id)) then Edited(Prune(id), before) else before
  {
    hide Parents, Edited, IsPruned;
    var d, id := PrunedEach(c, ws, ids[..|ids| - 1]), ids[|ids| - 1];
    PrunedKeysAre(d, ws, Parents(c, ws, id), k);
    hide ListKeys, ChildrenKeys;
  }

  /** A batch delete takes all the named issues, repeated or not, out of every list. */
  lemma {:induction false} BatchDeleteLists(c: Store, ws: string, ids: seq<string>, k: Key)
    requires k in c && (ListPrefix(ws) <= k || MyPrefix(ws) <= k) && c[k].Buckets? && Coherent(c[k].list)
    ensures k in PrunedEach(c, ws, ids) && PrunedEach(c, ws, ids)[k].Buckets?
    ensures var list := PrunedEach(c, ws, ids)[k].list;
            Coherent(list) && Abs(list) == Abs(c[k].list) - set id | id in ids
  {
    hide Coherent, Abs, RemoveIssue, Parents, PrunedEach;
    if ids == [] {
      NothingPruned(c, ws);
      assert (set id | id in ids) == {};
    } else {
      var front, id := ids[..|ids| - 1], ids[|ids| - 1];
      BatchDeleteLists(c, ws, front, k);
      EachStep(c, ws, ids, k);
      ThirdOfLists(ws, k);
      RemoveRefines(PrunedEach(c, ws, front)[k].list, id);
      assert (set id | id in ids) == (set id | id in front) + {id};
    }
  }

  lemma NothingPruned(c: Store, ws: string)
    ensures PrunedEach(c, ws, []) == c
  {
  }

  /** And out of every children cache, in which the other issues stay as they are, in order. */
  lemma {:induction false} BatchDeleteChildren(c: Store, ws: string, ids: seq<string>, k: Key)
    requires WellTyped(c, ws) && k in c && ChildrenPrefix(ws) <= k
    ensures k in PrunedEach(c, ws, ids) && PrunedEach(c, ws, ids)[k] == IssueList(WithoutAll(c[k].issues, ids))
  {
    hide WellTyped, Without, Parents, PrunedEach, Find;
    if ids == [] {
      NothingPruned(c, ws);
      assert c[k].IssueList? by { ChildrenTyped(c, ws, k); }
    } else {
      var front, id := ids[..|ids| - 1], ids[|ids| - 1];
      BatchDeleteChildren(c, ws, front, k);
      EachStep(c, ws, ids, k);
      ChildrenTyped(c, ws, k);
      if !IsPruned(k, ws, Parents(c, ws, id)) {
        NotHeld(c, ws, id, k);
        StillWithout(c[k].issues, front, id);
      }
    }
  }

  lemma ChildrenTyped(c: Store, ws: string, k: Key)
    requires WellTyped(c, ws) && k in c && ChildrenPrefix(ws) <= k
    ensures c[k].IssueList? && |k| == 4 && k[3].Str?
    ensures k[0] == Str("issues") && k[1] == Str(ws) && k[2] == Str("children")
  {
    FirstThree(k, ChildrenPrefix(ws));
  }

  lemma NotHeld(c: Store, ws: string, id: string, k: Key)
    requires WellTyped(c, ws) && k in c && ChildrenPrefix(ws) <= k && !IsPruned(k, ws, Parents(c, ws, id))
    ensures c[k].IssueList? && forall i :: i in c[k].issues ==> i.id != id
  {
    hide Parents, WellTyped;
    ChildrenTyped(c, ws, k);
    if HoldsChild(c[k], id) {
      EveryHolderIsCollected(c, ws, id, k);
      PrunedKeysAre(c, ws, Parents(c, ws, id), k);
    }
  }

  lemma StillWithout(issues: seq<Issue>, ids: seq<string>, id: string)
    requires forall i :: i in issues ==> i.id != id
    ensures Without(WithoutAll(issues, ids), id) == WithoutAll(issues, ids)
  {
    hide Without;
    forall i | i in WithoutAll(issues, ids)
      ensures i.id != id
    {
      WithoutAllMembers(issues, ids, i);
    }
    WithoutMembers(WithoutAll(issues, ids), id);
  }
}
