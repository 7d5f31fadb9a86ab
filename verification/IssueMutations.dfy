/** Optimistic issue updates and their rollback (packages/core/issues/mutations.ts,
    useUpdateIssue and useBatchUpdateIssues). */
module IssueMutations {
  import opened Text
  import opened IssueBuckets
  import opened QueryCache

  /** The shape each key family holds. My-issues keys hold lists or assignee groups. */
  ghost predicate WellTyped(c: Store, ws: string) {
    forall k: Key :: k in c ==>
      && (ListPrefix(ws) <= k ==> c[k].Buckets?)
      && (MyPrefix(ws) <= k ==> c[k].Buckets? || c[k].Grouped?)
      && (ChildrenPrefix(ws) <= k ==> c[k].IssueList? && |k| == 4 && k[3].Str? && k[3].s != "")
      && (DetailPrefix(ws) <= k ==> c[k].Detail?)
  }

  /** Keys of different families differ in their third segment. */
  lemma Apart(ws: string, k: Key)
    ensures ListPrefix(ws) <= k ==> !(MyPrefix(ws) <= k) && !(ChildrenPrefix(ws) <= k) && !(DetailPrefix(ws) <= k)
    ensures MyPrefix(ws) <= k ==> !(ChildrenPrefix(ws) <= k) && !(DetailPrefix(ws) <= k)
    ensures ChildrenPrefix(ws) <= k ==> !(DetailPrefix(ws) <= k)
  {
    assert ListPrefix(ws) <= k ==> k[2] == ListPrefix(ws)[2] == Str("list");
    assert MyPrefix(ws) <= k ==> k[2] == MyPrefix(ws)[2] == Str("my");
    assert ChildrenPrefix(ws) <= k ==> k[2] == ChildrenPrefix(ws)[2] == Str("children");
    assert DetailPrefix(ws) <= k ==> k[2] == DetailPrefix(ws)[2] == Str("detail");
  }

  lemma ChildrenKeyIs(ws: string, k: Key)
    ensures forall p :: ChildrenPrefix(ws) <= ChildrenKey(ws, p)
    ensures forall id :: DetailPrefix(ws) <= DetailKey(ws, id)
    ensures ChildrenPrefix(ws) <= k && |k| == 4 && k[3].Str? ==> k == ChildrenKey(ws, k[3].s)
  {
    if ChildrenPrefix(ws) <= k && |k| == 4 && k[3].Str? {
      assert k == k[..3] + [k[3]] && k[..3] == ChildrenPrefix(ws);
    }
  }

  function Truthy(o: Option<string>): bool {
    o.Some? && o.value != ""
  }

  function ParentOfDetail(d: Option<Data>): Option<string> {
    if d.Some? && d.value.Detail? then d.value.issue.parentId else None
  }

  function ParentOfLocated(d: Data, id: string): Option<string> {
    if d.Buckets? && Locate(d.list, id).Some? then Locate(d.list, id).value.issue.parentId else None
  }

  /** The freshest parent: from the detail, else from the first list. */
  function ParentHint(c: Store, ws: string, id: string, lists: seq<(Key, Data)>): Option<string> {
    var fromDetail := ParentOfDetail(if DetailKey(ws, id) in c then Some(c[DetailKey(ws, id)]) else None);
    if fromDetail.Some? then fromDetail
    else if lists != [] then ParentOfLocated(lists[0].1, id)
    else None
  }

  predicate HoldsChild(d: Data, id: string) {
    d.IssueList? && Find(d.issues, id).Some?
  }

  /** The parent whose children cache is edited: the hint, or any loaded children cache with the issue. */
  ghost predicate Resolved(c: Store, ws: string, id: string, lists: seq<(Key, Data)>, parent: Option<string>) {
    var hint := ParentHint(c, ws, id, lists);
    if Truthy(hint) then parent == hint
    else match parent
      case None => forall k :: k in c && ChildrenPrefix(ws) <= k ==> !HoldsChild(c[k], id)
      case Some(p) => p != "" && ChildrenKey(ws, p) in c && HoldsChild(c[ChildrenKey(ws, p)], id)
  }

  datatype UpdateContext = UpdateContext(
    prevLists: seq<(Key, Data)>, prevDetail: Option<Data>, prevChildren: Option<Data>, parentId: Option<string>)

  function ParentKeys(ws: string, parent: Option<string>): set<Key> {
    if parent.Some? then {ChildrenKey(ws, parent.value)} else {}
  }

  function Get(c: Store, k: Key): Option<Data> {
    if k in c then Some(c[k]) else None
  }

  /** What onMutate of an update does to the store, and what it remembers. */
  ghost predicate Updated(c: Store, d: Store, ws: string, id: string, patch: Patch, ctx: UpdateContext) {
    && Snapshot(ctx.prevLists, c, ListPrefix(ws))
    && Resolved(c, ws, id, ctx.prevLists, ctx.parentId)
    && ctx.prevDetail == Get(c, DetailKey(ws, id))
    && ctx.prevChildren == (if ctx.parentId.Some? then Get(c, ChildrenKey(ws, ctx.parentId.value)) else None)
    && var keys := KeysUnder(c, ListPrefix(ws)) + {DetailKey(ws, id)} + ParentKeys(ws, ctx.parentId);
       d == EditKeys(c, keys, Change(id, patch))
  }

  method ResolveParent(qc: QueryClient, ws: string, id: string, prevLists: seq<(Key, Data)>)
    returns (parentId: Option<string>)
    requires WellTyped(qc.cache, ws) && Snapshot(prevLists, qc.cache, ListPrefix(ws))
    ensures Resolved(qc.cache, ws, id, prevLists, parentId)
  {
    hide ParentHint, WellTyped, HoldsChild, ChildrenKey;
    parentId := ParentHint(qc.cache, ws, id, prevLists);
    if Truthy(parentId) {
      return;
    }
    parentId := None;
    var childrenCaches := qc.GetQueriesData(ChildrenPrefix(ws));
    for i := 0 to |childrenCaches|
      invariant forall j :: 0 <= j < i ==> !HoldsChild(childrenCaches[j].1, id)
    {
      var (key, data) := childrenCaches[i];
      if !HoldsChild(data, id) {
        continue;
      }
      var candidate := key[|key| - 1];
      CandidateIs(qc.cache, ws, key);
      if candidate.Str? {
        return Some(candidate.s);
      }
    }
    NowhereHeld(qc.cache, ws, id, childrenCaches);
  }

  /** The last segment of a children key names the parent. */
  lemma CandidateIs(c: Store, ws: string, key: Key)
    requires WellTyped(c, ws) && key in c && ChildrenPrefix(ws) <= key
    ensures key != [] && key[|key| - 1].Str? && key[|key| - 1].s != "" && ChildrenKey(ws, key[|key| - 1].s) == key
  {
    ChildrenKeyIs(ws, key);
  }

  lemma NowhereHeld(c: Store, ws: string, id: string, entries: seq<(Key, Data)>)
    requires Snapshot(entries, c, ChildrenPrefix(ws))
    requires forall j :: 0 <= j < |entries| ==> !HoldsChild(entries[j].1, id)
    ensures forall k :: k in c && ChildrenPrefix(ws) <= k ==> !HoldsChild(c[k], id)
  {
    hide HoldsChild;
    forall k | k in c && ChildrenPrefix(ws) <= k
      ensures !HoldsChild(c[k], id)
    {
      assert k in KeysOf(entries);
    }
  }

  method UpdateOnMutate(qc: QueryClient, ws: string, id: string, patch: Patch) returns (ctx: UpdateContext)
    requires WellTyped(qc.cache, ws)
    modifies qc
    ensures Updated(old(qc.cache), qc.cache, ws, id, patch, ctx)
  {
    hide Resolved, WellTyped, Edited;
    var prevLists := qc.GetQueriesData(ListPrefix(ws));
    var prevDetail := qc.GetQueryData(DetailKey(ws, id));
    var parentId := ResolveParent(qc, ws, id, prevLists);
    var prevChildren := if parentId.Some? then qc.GetQueryData(ChildrenKey(ws, parentId.value)) else None;
    ghost var c := qc.cache;
    EditEntries(qc, prevLists, Change(id, patch));
    EditOne(qc, DetailKey(ws, id), Change(id, patch));
    UpdateKeysApart(c, ws, id, parentId);
    if parentId.Some? {
      EditOne(qc, ChildrenKey(ws, parentId.value), Change(id, patch));
    }
    ctx := UpdateContext(prevLists, prevDetail, prevChildren, parentId);
  }

  lemma UpdateKeysApart(c: Store, ws: string, id: string, parent: Option<string>)
    ensures forall k :: k in KeysUnder(c, ListPrefix(ws)) ==> k != DetailKey(ws, id)
    ensures forall k :: k in KeysUnder(c, ListPrefix(ws)) + {DetailKey(ws, id)} ==> k !in ParentKeys(ws, parent)
  {
    ChildrenKeyIs(ws, []);
    Apart(ws, DetailKey(ws, id));
    forall k | k in KeysUnder(c, ListPrefix(ws))
      ensures !(DetailPrefix(ws) <= k) && !(ChildrenPrefix(ws) <= k)
    {
      Apart(ws, k);
    }
  }

  /** Everything that onError writes back. */
  function UpdateSnaps(ws: string, id: string, ctx: UpdateContext): seq<(Key, Data)> {
    ctx.prevLists
    + (if ctx.prevDetail.Some? then [(DetailKey(ws, id), ctx.prevDetail.value)] else [])
    + (if ctx.parentId.Some? && ctx.prevChildren.Some?
       then [(ChildrenKey(ws, ctx.parentId.value), ctx.prevChildren.value)] else [])
  }

  method UpdateOnError(qc: QueryClient, ws: string, id: string, ctx: UpdateContext)
    modifies qc
    ensures qc.cache == Restore(old(qc.cache), UpdateSnaps(ws, id, ctx))
  {
    hide Restore;
    ghost var d := qc.cache;
    RestoreEntries(qc, ctx.prevLists);
    var detail := if ctx.prevDetail.Some? then [(DetailKey(ws, id), ctx.prevDetail.value)] else [];
    RestoreAppend(d, ctx.prevLists, detail);
    RestoreEntries(qc, detail);
    var children := if ctx.parentId.Some? && ctx.prevChildren.Some?
                    then [(ChildrenKey(ws, ctx.parentId.value), ctx.prevChildren.value)] else [];
    RestoreAppend(d, ctx.prevLists + detail, children);
    RestoreEntries(qc, children);
  }

  /** An edit is undone by snapshots of all the loaded keys it touched. */
  lemma EditRollsBack(c: Store, keys: set<Key>, e: Edit, snaps: seq<(Key, Data)>)
    requires TakenFrom(snaps, c)
    requires forall k :: k in keys && k in c ==> Covers(snaps, k)
    ensures Restore(EditKeys(c, keys, e), snaps) == c
  {
    hide Restore, Covers, Edited;
    RestoreIsExactIff(c, EditKeys(c, keys, e), snaps);
  }

  lemma KeysOfAppend(a: seq<(Key, Data)>, b: seq<(Key, Data)>)
    ensures KeysOf(a + b) == KeysOf(a) + KeysOf(b)
  {
    var s := a + b;
    assert forall i :: 0 <= i < |a| ==> s[i] == a[i];
    assert forall i :: 0 <= i < |b| ==> s[|a| + i] == b[i];
    forall k | k in KeysOf(s) ensures k in KeysOf(a) + KeysOf(b) {
      var i :| 0 <= i < |s| && s[i].0 == k;
      assert if i < |a| then a[i].0 == k else b[i - |a|].0 == k;
    }
    forall k | k in KeysOf(b) ensures k in KeysOf(s) {
      var i :| 0 <= i < |b| && b[i].0 == k;
      assert s[|a| + i].0 == k;
    }
  }

  lemma TakenAppend(a: seq<(Key, Data)>, b: seq<(Key, Data)>, c: Store)
    requires TakenFrom(a, c) && TakenFrom(b, c)
    ensures TakenFrom(a + b, c)
  {
  }

  lemma KeysOfOne(k: Key, d: Data)
    ensures KeysOf([(k, d)]) == {k}
  {
    assert [(k, d)][0].0 == k;
  }

  /** A failed update leaves no trace: onError after onMutate is the identity on the whole store. */
  lemma UpdateRollsBack(c: Store, d: Store, ws: string, id: string, patch: Patch, ctx: UpdateContext)
    requires Updated(c, d, ws, id, patch, ctx)
    ensures Restore(d, UpdateSnaps(ws, id, ctx)) == c
  {
    hide Restore, Resolved, Edited;
    var detail := if ctx.prevDetail.Some? then [(DetailKey(ws, id), ctx.prevDetail.value)] else [];
    var children := if ctx.parentId.Some? && ctx.prevChildren.Some?
                    then [(ChildrenKey(ws, ctx.parentId.value), ctx.prevChildren.value)] else [];
    TakenAppend(ctx.prevLists, detail, c);
    TakenAppend(ctx.prevLists + detail, children, c);
    KeysOfAppend(ctx.prevLists, detail);
    KeysOfAppend(ctx.prevLists + detail, children);
    if ctx.prevDetail.Some? {
      KeysOfOne(DetailKey(ws, id), ctx.prevDetail.value);
    }
    if ctx.parentId.Some? && ctx.prevChildren.Some? {
      KeysOfOne(ChildrenKey(ws, ctx.parentId.value), ctx.prevChildren.value);
    }
    var keys := KeysUnder(c, ListPrefix(ws)) + {DetailKey(ws, id)} + ParentKeys(ws, ctx.parentId);
    EditRollsBack(c, keys, Change(id, patch), UpdateSnaps(ws, id, ctx));
  }

  method FailedUpdateLeavesNoTrace(qc: QueryClient, ws: string, id: string, patch: Patch)
    requires WellTyped(qc.cache, ws)
    modifies qc
    ensures qc.cache == old(qc.cache)
  {
    ghost var c := qc.cache;
    var ctx := UpdateOnMutate(qc, ws, id, patch);
    UpdateRollsBack(c, qc.cache, ws, id, patch, ctx);
    UpdateOnError(qc, ws, id, ctx);
  }

  // ---------------------------------------------------------------------------
  // Batch update
  // ---------------------------------------------------------------------------

  datatype BatchUpdateContext = BatchUpdateContext(prevLists: seq<(Key, Data)>, prevChildren: seq<(Key, Data)>)

  predicate HoldsAny(d: Data, ids: set<string>) {
    d.IssueList? && exists i :: i in d.issues && i.id in ids
  }

  function AffectedKeys(c: Store, ws: string, ids: set<string>): set<Key> {
    set k | k in c && ChildrenPrefix(ws) <= k && HoldsAny(c[k], ids)
  }

  ghost predicate BatchUpdated(
    c: Store, d: Store, ws: string, ids: seq<string>, patch: Patch, ctx: BatchUpdateContext)
  {
    && Snapshot(ctx.prevLists, c, ListPrefix(ws))
    && TakenFrom(ctx.prevChildren, c)
    && KeysOf(ctx.prevChildren) == AffectedKeys(c, ws, IdSet(ids))
    && d == EditKeys(c, KeysUnder(c, ListPrefix(ws)) + AffectedKeys(c, ws, IdSet(ids)), ChangeAll(ids, patch))
  }

  method BatchUpdateOnMutate(qc: QueryClient, ws: string, ids: seq<string>, patch: Patch)
    returns (ctx: BatchUpdateContext)
    requires WellTyped(qc.cache, ws)
    modifies qc
    ensures BatchUpdated(old(qc.cache), qc.cache, ws, ids, patch, ctx)
  {
    hide Edited, WellTyped, HoldsAny;
    ghost var c := qc.cache;
    var prevLists := qc.GetQueriesData(ListPrefix(ws));
    EditEntries(qc, prevLists, ChangeAll(ids, patch));
    var childrenCaches := qc.GetQueriesData(ChildrenPrefix(ws));
    forall k | k in KeysUnder(c, ListPrefix(ws))
      ensures !(ChildrenPrefix(ws) <= k)
    {
      Apart(ws, k);
    }
    assert KeysUnder(qc.cache, ChildrenPrefix(ws)) == KeysUnder(c, ChildrenPrefix(ws));
    var prevChildren := Affected(childrenCaches, IdSet(ids));
    assert KeysOf(prevChildren) == AffectedKeys(c, ws, IdSet(ids)) by {
      AffectedAre(childrenCaches, IdSet(ids), qc.cache, c, ws);
    }
    EditEntries(qc, prevChildren, ChangeAll(ids, patch));
    ctx := BatchUpdateContext(prevLists, prevChildren);
  }

  /** The loop's `continue` for caches that hold none of the issues. */
  function Affected(entries: seq<(Key, Data)>, ids: set<string>): (r: seq<(Key, Data)>)
    ensures forall e :: e in r <==> e in entries && HoldsAny(e.1, ids)
  {
    if entries == [] then []
    else (if HoldsAny(entries[0].1, ids) then [entries[0]] else []) + Affected(entries[1..], ids)
  }

  lemma AffectedAre(entries: seq<(Key, Data)>, ids: set<string>, now: Store, c: Store, ws: string)
    requires Snapshot(entries, now, ChildrenPrefix(ws))
    requires KeysUnder(now, ChildrenPrefix(ws)) == KeysUnder(c, ChildrenPrefix(ws))
    requires forall k :: k in c && ChildrenPrefix(ws) <= k ==> k in now && now[k] == c[k]
    ensures KeysOf(Affected(entries, ids)) == AffectedKeys(c, ws, ids)
    ensures TakenFrom(Affected(entries, ids), c) && TakenFrom(Affected(entries, ids), now)
  {
    hide HoldsAny;
    var r := Affected(entries, ids);
    forall i | 0 <= i < |r|
      ensures r[i].0 in AffectedKeys(c, ws, ids) && c[r[i].0] == now[r[i].0] == r[i].1
    {
      assert r[i] in r;
      assert r[i].0 in KeysUnder(c, ChildrenPrefix(ws));
    }
    forall k | k in AffectedKeys(c, ws, ids)
      ensures k in KeysOf(r)
    {
      assert k in KeysOf(entries);
      var i :| 0 <= i < |entries| && entries[i].0 == k;
      assert entries[i] in r;
      var j :| 0 <= j < |r| && r[j] == entries[i];
    }
  }

  method BatchUpdateOnError(qc: QueryClient, ctx: BatchUpdateContext)
    modifies qc
    ensures qc.cache == Restore(old(qc.cache), ctx.prevLists + ctx.prevChildren)
  {
    RestoreAppend(qc.cache, ctx.prevLists, ctx.prevChildren);
    RestoreEntries(qc, ctx.prevLists);
    RestoreEntries(qc, ctx.prevChildren);
  }

  lemma BatchUpdateRollsBack(c: Store, d: Store, ws: string, ids: seq<string>, patch: Patch, ctx: BatchUpdateContext)
    requires BatchUpdated(c, d, ws, ids, patch, ctx)
    ensures Restore(d, ctx.prevLists + ctx.prevChildren) == c
  {
    hide Restore, Edited;
    TakenAppend(ctx.prevLists, ctx.prevChildren, c);
    KeysOfAppend(ctx.prevLists, ctx.prevChildren);
    var keys := KeysUnder(c, ListPrefix(ws)) + AffectedKeys(c, ws, IdSet(ids));
    EditRollsBack(c, keys, ChangeAll(ids, patch), ctx.prevLists + ctx.prevChildren);
  }

  method FailedBatchUpdateLeavesNoTrace(qc: QueryClient, ws: string, ids: seq<string>, patch: Patch)
    requires WellTyped(qc.cache, ws)
    modifies qc
    ensures qc.cache == old(qc.cache)
  {
    ghost var c := qc.cache;
    var ctx := BatchUpdateOnMutate(qc, ws, ids, patch);
    BatchUpdateRollsBack(c, qc.cache, ws, ids, patch, ctx);
    BatchUpdateOnError(qc, ctx);
  }
}
