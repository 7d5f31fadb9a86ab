/** Optimistic deletes and their rollback (packages/core/issues/mutations.ts,
    useDeleteIssue and useBatchDeleteIssues). */
module IssueDeletes {
  import opened Text
  import opened QueryCache
  import opened IssueMutations
  import opened DeleteCache

  datatype DeleteContext = DeleteContext(
    prevLists: seq<(Key, Data)>, prevMyLists: seq<(Key, Data)>, prevDetail: Option<Data>,
    prevChildren: seq<(Key, Data)>)

  /** The children caches that are about to be pruned, as they were. */
  ghost predicate ChildrenSnapshot(snaps: seq<(Key, Data)>, c: Store, ws: string, parents: set<string>) {
    && TakenFrom(snaps, c)
    && KeysOf(snaps) == set k | k in c && k in ChildrenKeys(ws, parents)
  }

  method SnapshotChildren(qc: QueryClient, ws: string, parents: set<string>) returns (snaps: seq<(Key, Data)>)
    ensures ChildrenSnapshot(snaps, qc.cache, ws, parents)
  {
    snaps := [];
    var rest := parents;
    assert ChildrenKeys(ws, parents - rest) == {};
    while rest != {}
      invariant rest <= parents
      invariant ChildrenSnapshot(snaps, qc.cache, ws, parents - rest)
      decreases |rest|
    {
      var p :| p in rest;
      OneMoreParent(ws, parents - rest, p);
      assert parents - (rest - {p}) == (parents - rest) + {p};
      var data := qc.GetQueryData(ChildrenKey(ws, p));
      if data.Some? {
        KeysOfSnoc(snaps, (ChildrenKey(ws, p), data.value));
        snaps := snaps + [(ChildrenKey(ws, p), data.value)];
      }
      rest := rest - {p};
    }
    assert parents - rest == parents;
  }

  ghost predicate Deleted(c: Store, d: Store, ws: string, id: string, ctx: DeleteContext) {
    && Snapshot(ctx.prevLists, c, ListPrefix(ws))
    && Snapshot(ctx.prevMyLists, c, MyPrefix(ws))
    && ctx.prevDetail == Get(c, DetailKey(ws, id))
    && ChildrenSnapshot(ctx.prevChildren, c, ws, Parents(c, ws, id))
    && d == Removed(Pruned(c, ws, id, Parents(c, ws, id)), DetailKey(ws, id))
  }

  /** None when collection throws; then nothing is written. */
  method DeleteOnMutate(qc: QueryClient, ws: string, id: string) returns (ctx: Option<DeleteContext>)
    modifies qc
    ensures ctx.Some? <==> Bucketed(old(qc.cache), ws)
    ensures if ctx.Some? then Deleted(old(qc.cache), qc.cache, ws, id, ctx.value) else qc.cache == old(qc.cache)
  {
    hide Parents, Pruned, ChildrenSnapshot;
    var parents := CollectDeletedIssueCacheMetadata(qc, ws, id);
    if parents.None? {
      return None;
    }
    var prevLists := qc.GetQueriesData(ListPrefix(ws));
    var prevMyLists := qc.GetQueriesData(MyPrefix(ws));
    var prevDetail := qc.GetQueryData(DetailKey(ws, id));
    var prevChildren := SnapshotChildren(qc, ws, parents.value);
    PruneIssue(qc, ws, id, parents.value);
    qc.RemoveQueries(DetailKey(ws, id));
    return Some(DeleteContext(prevLists, prevMyLists, prevDetail, prevChildren));
  }

  function DetailSnap(ws: string, id: string, detail: Option<Data>): seq<(Key, Data)> {
    if detail.Some? then [(DetailKey(ws, id), detail.value)] else []
  }

  function DeleteSnaps(ws: string, id: string, ctx: DeleteContext): seq<(Key, Data)> {
    ctx.prevLists + ctx.prevMyLists + DetailSnap(ws, id, ctx.prevDetail) + ctx.prevChildren
  }

  method DeleteOnError(qc: QueryClient, ws: string, id: string, ctx: DeleteContext)
    modifies qc
    ensures qc.cache == Restore(old(qc.cache), DeleteSnaps(ws, id, ctx))
  {
    hide Restore, DetailSnap;
    var detail := DetailSnap(ws, id, ctx.prevDetail);
    RestoreAppend(qc.cache, ctx.prevLists, ctx.prevMyLists);
    RestoreAppend(qc.cache, ctx.prevLists + ctx.prevMyLists, detail);
    RestoreAppend(qc.cache, ctx.prevLists + ctx.prevMyLists + detail, ctx.prevChildren);
    RestoreEntries(qc, ctx.prevLists);
    RestoreEntries(qc, ctx.prevMyLists);
    RestoreEntries(qc, detail);
    RestoreEntries(qc, ctx.prevChildren);
  }

  lemma DeleteSnapKeys(c: Store, d: Store, ws: string, id: string, ctx: DeleteContext)
    requires Deleted(c, d, ws, id, ctx)
    ensures TakenFrom(DeleteSnaps(ws, id, ctx), c)
    ensures KeysOf(DeleteSnaps(ws, id, ctx))
         == ListKeys(c, ws) + (if DetailKey(ws, id) in c then {DetailKey(ws, id)} else {})
            + set k | k in c && k in ChildrenKeys(ws, Parents(c, ws, id))
  {
    hide Parents, Pruned, KeysOf, Removed;
    var detail := DetailSnap(ws, id, ctx.prevDetail);
    DetailSnapKeys(c, ws, id);
    TakenAppend(ctx.prevLists, ctx.prevMyLists, c);
    TakenAppend(ctx.prevLists + ctx.prevMyLists, detail, c);
    TakenAppend(ctx.prevLists + ctx.prevMyLists + detail, ctx.prevChildren, c);
    KeysOfAppend(ctx.prevLists, ctx.prevMyLists);
    KeysOfAppend(ctx.prevLists + ctx.prevMyLists, detail);
    KeysOfAppend(ctx.prevLists + ctx.prevMyLists + detail, ctx.prevChildren);
  }

  lemma DetailSnapKeys(c: Store, ws: string, id: string)
    ensures TakenFrom(DetailSnap(ws, id, Get(c, DetailKey(ws, id))), c)
    ensures KeysOf(DetailSnap(ws, id, Get(c, DetailKey(ws, id))))
         == if DetailKey(ws, id) in c then {DetailKey(ws, id)} else {}
  {
    if DetailKey(ws, id) in c {
      KeysOfOne(DetailKey(ws, id), c[DetailKey(ws, id)]);
    }
  }

  /** One key of the store before, after and in the snapshots. */
  lemma DeleteTouches(c: Store, d: Store, ws: string, id: string, ctx: DeleteContext, k: Key)
    requires Deleted(c, d, ws, id, ctx)
    ensures k in d ==> k in c
    ensures k in c && DetailKey(ws, id) <= k ==>
              k !in d && (Covers(DeleteSnaps(ws, id, ctx), k) <==> k == DetailKey(ws, id))
    ensures k in c && !(DetailKey(ws, id) <= k) && !Covers(DeleteSnaps(ws, id, ctx), k) ==> k in d && d[k] == c[k]
  {
    DeleteSnapKeys(c, d, ws, id, ctx);
    DetailKeysApart(ws, id, k);
    hide KeysOf, DeleteSnaps, TakenFrom, DetailKey, ListPrefix, MyPrefix, ChildrenKey;
    DeletedAt(c, d, ws, id, ctx, k);
    hide Deleted, Parents;
  }

  lemma DeletedAt(c: Store, d: Store, ws: string, id: string, ctx: DeleteContext, k: Key)
    requires Deleted(c, d, ws, id, ctx)
    ensures k in d <==> k in c && !(DetailKey(ws, id) <= k)
    ensures k in d && k !in ListKeys(c, ws) && k !in ChildrenKeys(ws, Parents(c, ws, id)) ==> d[k] == c[k]
  {
    hide Parents, Edited, Snapshot, ChildrenSnapshot, DetailKey, ListKeys, ChildrenKeys;
  }

  lemma DetailKeysApart(ws: string, id: string, k: Key)
    ensures DetailKey(ws, id) <= k ==> !(ListPrefix(ws) <= k) && !(MyPrefix(ws) <= k)
    ensures DetailKey(ws, id) <= k ==> forall p :: k != ChildrenKey(ws, p)
  {
    ChildrenKeyIs(ws, []);
    if DetailKey(ws, id) <= k {
      assert DetailPrefix(ws) <= k;
      Apart(ws, k);
    }
  }

  /** A failed delete restores the store exactly if and only if no loaded key properly extends the
      issue's detail key: such a key would be removed by prefix and never written back. */
  lemma DeleteRollsBackIff(c: Store, d: Store, ws: string, id: string, ctx: DeleteContext)
    requires Deleted(c, d, ws, id, ctx)
    ensures Restore(d, DeleteSnaps(ws, id, ctx)) == c <==>
            forall k :: k in c && DetailKey(ws, id) <= k ==> k == DetailKey(ws, id)
  {
    hide Deleted, DeleteSnaps, Restore, TakenFrom, Covers, DetailKey;
    var snaps := DeleteSnaps(ws, id, ctx);
    DeleteSnapKeys(c, d, ws, id, ctx);
    RestoreIsExactIff(c, d, snaps);
    forall k
      ensures k in d ==> k in c
      ensures k in c && DetailKey(ws, id) <= k ==> k !in d && (Covers(snaps, k) <==> k == DetailKey(ws, id))
      ensures k in c && !(DetailKey(ws, id) <= k) && !Covers(snaps, k) ==> k in d && d[k] == c[k]
    {
      DeleteTouches(c, d, ws, id, ctx, k);
    }
  }

  method FailedDeleteLeavesNoTrace(qc: QueryClient, ws: string, id: string)
    requires forall k :: k in qc.cache && DetailKey(ws, id) <= k ==> k == DetailKey(ws, id)
    modifies qc
    ensures qc.cache == old(qc.cache)
  {
    ghost var c := qc.cache;
    var ctx := DeleteOnMutate(qc, ws, id);
    if ctx.Some? {
      DeleteRollsBackIff(c, qc.cache, ws, id, ctx.value);
      DeleteOnError(qc, ws, id, ctx.value);
    }
  }

  // ---------------------------------------------------------------------------
  // Batch delete
  // ---------------------------------------------------------------------------

  function AllParents(c: Store, ws: string, ids: seq<string>): set<string> {
    if ids == [] then {} else AllParents(c, ws, ids[..|ids| - 1]) + Parents(c, ws, ids[|ids| - 1])
  }

  /** Each issue is pruned with the metadata collected before the first write. */
  function PrunedEach(c: Store, ws: string, ids: seq<string>): Store {
    if ids == [] then c
    else Pruned(PrunedEach(c, ws, ids[..|ids| - 1]), ws, ids[|ids| - 1], Parents(c, ws, ids[|ids| - 1]))
  }

  datatype BatchDeleteContext = BatchDeleteContext(
    prevLists: seq<(Key, Data)>, prevMyLists: seq<(Key, Data)>, prevChildren: seq<(Key, Data)>)

  function BatchDeleteSnaps(ctx: BatchDeleteContext): seq<(Key, Data)> {
    ctx.prevLists + ctx.prevMyLists + ctx.prevChildren
  }

  ghost predicate BatchDeleted(c: Store, d: Store, ws: string, ids: seq<string>, ctx: BatchDeleteContext) {
    && Snapshot(ctx.prevLists, c, ListPrefix(ws))
    && Snapshot(ctx.prevMyLists, c, MyPrefix(ws))
    && ChildrenSnapshot(ctx.prevChildren, c, ws, AllParents(c, ws, ids))
    && d == PrunedEach(c, ws, ids)
  }

  method CollectAll(qc: QueryClient, ws: string, ids: seq<string>) returns (metadata: Option<seq<set<string>>>)
    ensures metadata.Some? ==> |metadata.value| == |ids|
    ensures metadata.Some? ==> forall i :: 0 <= i < |ids| ==> metadata.value[i] == Parents(qc.cache, ws, ids[i])
    ensures metadata.Some? <==> ids == [] || Bucketed(qc.cache, ws)
  {
    hide Parents, Bucketed;
    var found: seq<set<string>> := [];
    for i := 0 to |ids|
      invariant |found| == i && forall j :: 0 <= j < i ==> found[j] == Parents(qc.cache, ws, ids[j])
      invariant i > 0 ==> Bucketed(qc.cache, ws)
    {
      var parents := CollectDeletedIssueCacheMetadata(qc, ws, ids[i]);
      if parents.None? {
        return None;
      }
      found := found + [parents.value];
    }
    return Some(found);
  }

  lemma PrunedKeepsShape(c: Store, ws: string, id: string, parents: set<string>)
    ensures Pruned(c, ws, id, parents).Keys == c.Keys
    ensures ListKeys(Pruned(c, ws, id, parents), ws) == ListKeys(c, ws)
    ensures Bucketed(c, ws) ==> Bucketed(Pruned(c, ws, id, parents), ws)
  {
    assert Pruned(c, ws, id, parents).Keys == c.Keys;
  }

  /** Pruning touches list and my-issues caches and the parents' children caches only. */
  lemma {:induction false} PrunedEachFrame(c: Store, ws: string, ids: seq<string>)
    ensures PrunedEach(c, ws, ids).Keys == c.Keys
    ensures ListKeys(PrunedEach(c, ws, ids), ws) == ListKeys(c, ws)
    ensures forall k :: k in c && k !in ListKeys(c, ws) && k !in ChildrenKeys(ws, AllParents(c, ws, ids))
                        ==> PrunedEach(c, ws, ids)[k] == c[k]
  {
    hide Parents, Edited;
    if ids != [] {
      var front, id := ids[..|ids| - 1], ids[|ids| - 1];
      PrunedEachFrame(c, ws, front);
      var d := PrunedEach(c, ws, front);
      PrunedKeepsShape(d, ws, id, Parents(c, ws, id));
      forall p | p in Parents(c, ws, id) || p in AllParents(c, ws, front)
        ensures ChildrenKey(ws, p) in ChildrenKeys(ws, AllParents(c, ws, ids))
      {
      }
    }
  }

  method PruneEach(qc: QueryClient, ws: string, ids: seq<string>, metadata: seq<set<string>>)
    requires ids == [] || Bucketed(qc.cache, ws)
    requires |metadata| == |ids| && forall i :: 0 <= i < |ids| ==> metadata[i] == Parents(qc.cache, ws, ids[i])
    modifies qc
    ensures qc.cache == PrunedEach(old(qc.cache), ws, ids)
  {
    hide Parents, Bucketed, Pruned;
    ghost var c := qc.cache;
    for i := 0 to |ids|
      invariant qc.cache == PrunedEach(c, ws, ids[..i])
      invariant i < |ids| ==> Bucketed(qc.cache, ws)
    {
      PrunedKeepsShape(qc.cache, ws, ids[i], metadata[i]);
      PruneIssue(qc, ws, ids[i], metadata[i]);
      assert ids[..i + 1][..i] == ids[..i];
    }
    assert ids[..|ids|] == ids;
  }

  lemma {:induction false} UnionOfMetadata(c: Store, ws: string, ids: seq<string>, metadata: seq<set<string>>)
    requires |metadata| == |ids| && forall i :: 0 <= i < |ids| ==> metadata[i] == Parents(c, ws, ids[i])
    ensures AllParents(c, ws, ids) == set i, p | 0 <= i < |metadata| && p in metadata[i] :: p
  {
    hide Parents;
    if ids != [] {
      UnionOfMetadata(c, ws, ids[..|ids| - 1], metadata[..|ids| - 1]);
    }
  }

  method BatchDeleteOnMutate(qc: QueryClient, ws: string, ids: seq<string>) returns (ctx: Option<BatchDeleteContext>)
    modifies qc
    ensures ctx.Some? <==> ids == [] || Bucketed(old(qc.cache), ws)
    ensures if ctx.Some? then BatchDeleted(old(qc.cache), qc.cache, ws, ids, ctx.value) else qc.cache == old(qc.cache)
  {
    hide Parents, Pruned, ChildrenSnapshot, Bucketed, AllParents, PrunedEach;
    var metadata := CollectAll(qc, ws, ids);
    if metadata.None? {
      return None;
    }
    var parents := set i, p | 0 <= i < |metadata.value| && p in metadata.value[i] :: p;
    UnionOfMetadata(qc.cache, ws, ids, metadata.value);
    var prevLists := qc.GetQueriesData(ListPrefix(ws));
    var prevMyLists := qc.GetQueriesData(MyPrefix(ws));
    var prevChildren := SnapshotChildren(qc, ws, parents);
    PruneEach(qc, ws, ids, metadata.value);
    return Some(BatchDeleteContext(prevLists, prevMyLists, prevChildren));
  }

  /** onError, and onSuccess when the server deleted fewer issues than asked. */
  method BatchDeleteRestore(qc: QueryClient, ctx: BatchDeleteContext)
    modifies qc
    ensures qc.cache == Restore(old(qc.cache), BatchDeleteSnaps(ctx))
  {
    hide Restore;
    RestoreAppend(qc.cache, ctx.prevLists, ctx.prevMyLists);
    RestoreAppend(qc.cache, ctx.prevLists + ctx.prevMyLists, ctx.prevChildren);
    RestoreEntries(qc, ctx.prevLists);
    RestoreEntries(qc, ctx.prevMyLists);
    RestoreEntries(qc, ctx.prevChildren);
  }

  /** A failed or partial batch delete restores the store exactly. */
  lemma BatchDeleteRollsBack(c: Store, d: Store, ws: string, ids: seq<string>, ctx: BatchDeleteContext)
    requires BatchDeleted(c, d, ws, ids, ctx)
    ensures Restore(d, BatchDeleteSnaps(ctx)) == c
  {
    hide Parents, KeysOf, PrunedEach, Restore, AllParents;
    TakenAppend(ctx.prevLists, ctx.prevMyLists, c);
    TakenAppend(ctx.prevLists + ctx.prevMyLists, ctx.prevChildren, c);
    KeysOfAppend(ctx.prevLists, ctx.prevMyLists);
    KeysOfAppend(ctx.prevLists + ctx.prevMyLists, ctx.prevChildren);
    PrunedEachFrame(c, ws, ids);
    assert forall k :: k in c && !Covers(BatchDeleteSnaps(ctx), k) ==> k in d && d[k] == c[k];
    assert forall k :: k in d ==> k in d.Keys;
    RestoreIsExactIff(c, d, BatchDeleteSnaps(ctx));
  }

  method FailedBatchDeleteLeavesNoTrace(qc: QueryClient, ws: string, ids: seq<string>)
    modifies qc
    ensures qc.cache == old(qc.cache)
  {
    ghost var c := qc.cache;
    var ctx := BatchDeleteOnMutate(qc, ws, ids);
    if ctx.Some? {
      BatchDeleteRollsBack(c, qc.cache, ws, ids, ctx.value);
      BatchDeleteRestore(qc, ctx.value);
    }
  }
}
