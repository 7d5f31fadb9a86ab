/** What the mutation hooks and event handlers write, entry by entry and field by field
    (packages/core/issues/mutations.ts, packages/core/issues/ws-updaters.ts). */
module IssueWrites {
  import opened Text
  import opened IssueBuckets
  import opened IssueEdits
  import opened QueryCache
  import opened IssueMutations
  import opened IssueEvents

  /** The segments of the keys that the handlers write. */
  lemma KeysAre(ws: string, id: string)
    ensures ListPrefix(ws) == [Str("issues"), Str(ws), Str("list")]
    ensures DetailKey(ws, id) == [Str("issues"), Str(ws), Str("detail"), Str(id)]
    ensures ChildrenKey(ws, id) == [Str("issues"), Str(ws), Str("children"), Str(id)]
    ensures GanttPrefix(ws) == [Str("issues"), Str(ws), Str("project-gantt")]
    ensures LabelsKey(ws, id) == [Str("labels"), Str(ws), Str("issue"), Str(id)]
  {
  }

  /** In a flat list exactly the named issues take the patch, each in its place. */
  predicate ListTakes(before: seq<Issue>, after: seq<Issue>, ids: set<string>, patch: Patch) {
    && |after| == |before|
    && forall k :: 0 <= k < |before| ==>
         if before[k].id in ids then Takes(before[k], patch, after[k]) else after[k] == before[k]
  }

  /** One entry of the cache before and after: the issues named take the patch, all others stay. */
  ghost predicate EntryTakes(before: Data, after: Data, ids: set<string>, patch: Patch) {
    match before
    case Buckets(list) =>
      && after.Buckets?
      && (Coherent(list) ==> Coherent(after.list) && ShownAfter(Abs(list), Abs(after.list), ids, patch))
    case IssueList(issues) => after.IssueList? && ListTakes(issues, after.issues, ids, patch)
    case Detail(issue) => after.Detail? && Takes(issue, patch, after.issue)
    case LabelList(labels) => after == LabelList(if patch.labels.Some? then patch.labels.value else labels)
    case Grouped(_) => after == before
    case Other(_) => after == before
  }

  /** No entry comes or goes; those under `keys` take the patch, the others are as they were. */
  ghost predicate StoreTakes(c: Store, d: Store, keys: set<Key>, ids: set<string>, patch: Patch) {
    && d.Keys == c.Keys
    && forall k :: k in c ==> if k in keys then EntryTakes(c[k], d[k], ids, patch) else d[k] == c[k]
  }

  lemma {:induction false} MergeWhereTakes(issues: seq<Issue>, ids: set<string>, patch: Patch)
    ensures ListTakes(issues, MergeWhere(issues, ids, patch), ids, patch)
  {
    hide Merge, Takes;
    if issues != [] {
      MergeWhereTakes(issues[1..], ids, patch);
      MergeTakes(issues[0], patch);
      var rest := MergeWhere(issues[1..], ids, patch);
      var head := if issues[0].id in ids then Merge(issues[0], patch) else issues[0];
      assert MergeWhere(issues, ids, patch) == [head] + rest;
      forall k | 0 < k < |issues|
        ensures ([head] + rest)[k] == rest[k - 1] && issues[k] == issues[1..][k - 1]
      {
      }
    }
  }

  lemma ChangeTakes(before: Data, id: string, patch: Patch)
    ensures EntryTakes(before, Edited(Change(id, patch), before), {id}, patch)
  {
    hide Coherent, PatchIssue, Abs, ShownAfter, ListTakes, MergeWhere, Merge, Takes;
    match before
    case Buckets(list) =>
      if Coherent(list) {
        PatchedFields(list, id, patch);
      }
    case IssueList(issues) => MergeWhereTakes(issues, {id}, patch);
    case Detail(issue) => MergeTakes(issue, patch);
    case _ =>
  }

  lemma ChangeAllTakes(before: Data, ids: seq<string>, patch: Patch)
    requires before.Buckets? || before.IssueList?
    ensures EntryTakes(before, Edited(ChangeAll(ids, patch), before), (set id | id in ids), patch)
  {
    hide Coherent, PatchAll, Abs, ShownAfter, ListTakes, MergeWhere;
    match before
    case Buckets(list) =>
      if Coherent(list) {
        PatchedAllFields(list, ids, patch);
      }
    case IssueList(issues) => MergeWhereTakes(issues, (set id | id in ids), patch);
  }

  lemma ChangeKeysTake(c: Store, keys: set<Key>, id: string, patch: Patch)
    ensures StoreTakes(c, EditKeys(c, keys, Change(id, patch)), keys, {id}, patch)
  {
    hide Edited, EntryTakes;
    forall k | k in c && k in keys
      ensures EntryTakes(c[k], Edited(Change(id, patch), c[k]), {id}, patch)
    {
      ChangeTakes(c[k], id, patch);
    }
  }

  /** An optimistic update: every list, the detail and the parent's children take the patch, nothing else changes. */
  lemma UpdateWrites(c: Store, d: Store, ws: string, id: string, patch: Patch, ctx: UpdateContext)
    requires Updated(c, d, ws, id, patch, ctx)
    ensures var keys := KeysUnder(c, ListPrefix(ws)) + {DetailKey(ws, id)};
            var children := if ctx.parentId.Some? then {ChildrenKey(ws, ctx.parentId.value)} else {};
            StoreTakes(c, d, keys + children, {id}, patch)
  {
    hide StoreTakes, Resolved;
    ChangeKeysTake(c, KeysUnder(c, ListPrefix(ws)) + {DetailKey(ws, id)} + ParentKeys(ws, ctx.parentId), id, patch);
  }

  /** An optimistic batch update: every list and every children cache that holds one of the issues. */
  lemma BatchUpdateWrites(c: Store, d: Store, ws: string, ids: seq<string>, patch: Patch, ctx: BatchUpdateContext)
    requires BatchUpdated(c, d, ws, ids, patch, ctx) && WellTyped(c, ws)
    ensures var keys := KeysUnder(c, ListPrefix(ws)) + KeysUnder(c, ChildrenPrefix(ws));
            StoreTakes(c, d, keys, (set id | id in ids), patch)
  {
    hide Edited, ListPrefix, ChildrenPrefix;
    var all := set id | id in ids;
    var edited := KeysUnder(c, ListPrefix(ws)) + AffectedKeys(c, ws, IdSet(ids));
    forall k | k in c
      ensures k in edited ==> EntryTakes(c[k], d[k], all, patch)
      ensures k !in edited && ChildrenPrefix(ws) <= k ==> EntryTakes(c[k], d[k], all, patch)
    {
      hide EntryTakes;
      if k in edited {
        ChangeAllTakes(c[k], ids, patch);
      } else if ChildrenPrefix(ws) <= k {
        UntouchedTakes(c[k], ids, patch);
      }
    }
  }

  /** A list with none of the issues is, unchanged, the list with the patch. */
  lemma UntouchedTakes(data: Data, ids: seq<string>, patch: Patch)
    requires data.IssueList? && !HoldsAny(data, IdSet(ids))
    ensures EntryTakes(data, data, (set id | id in ids), patch)
  {
  }

  /** An update event: every list, the detail, and the children of the known parent unless the patch names another. */
  lemma HeardWrites(c: Store, ws: string, id: string, patch: Patch, lists: seq<(Key, Data)>)
    ensures var hint := ParentHint(c, ws, id, lists);
            var keys := KeysUnder(c, ListPrefix(ws)) + {DetailKey(ws, id)};
            var stays := hint.Some? && hint.value != "" && (patch.parentId.Some? ==> patch.parentId.value == hint);
            var children := if stays then {ChildrenKey(ws, hint.value)} else {};
            StoreTakes(c, Heard(c, ws, id, patch, lists), keys + children, {id}, patch)
  {
    hide StoreTakes, ParentHint;
    var hint := ParentHint(c, ws, id, lists);
    ChangeKeysTake(c, HeardKeys(c, ws, id, patch, hint), id, patch);
  }

  /** A labels event: every list, the detail, the issue's label list and the Gantt lists take the labels,
      and no other field changes. */
  lemma LabelsWrite(c: Store, ws: string, id: string, labels: seq<string>)
    ensures var keys := KeysUnder(c, ListPrefix(ws)) + KeysUnder(c, GanttPrefix(ws));
            var d := EditKeys(c, LabelKeys(c, ws, id), Change(id, LabelPatch(labels)));
            StoreTakes(c, d, keys + {DetailKey(ws, id), LabelsKey(ws, id)}, {id}, Patch(None, None, None, Some(labels)))
  {
    hide StoreTakes;
    ChangeKeysTake(c, LabelKeys(c, ws, id), id, LabelPatch(labels));
    assert LabelKeys(c, ws, id)
        == KeysUnder(c, ListPrefix(ws)) + KeysUnder(c, GanttPrefix(ws)) + {DetailKey(ws, id), LabelsKey(ws, id)};
  }

  /** A created issue goes into every list, where it belongs there, and nowhere else. */
  lemma CreationWrites(c: Store, ws: string, issue: Issue)
    ensures var d := EditKeys(c, KeysUnder(c, ListPrefix(ws)), Insert(issue));
            && d.Keys == c.Keys
            && forall k :: k in c ==>
                 d[k] == if ListPrefix(ws) <= k && c[k].Buckets? then Buckets(AddIssue(c[k].list, issue)) else c[k]
  {
    hide AddIssue;
    var d := EditKeys(c, KeysUnder(c, ListPrefix(ws)), Insert(issue));
    assert d.Keys == c.Keys;
  }

  /** The parent that an update goes by: the detail's, when the detail is loaded and has one; else the one that the
      issue has where the first of the lists shows it. */
  lemma HintReads(c: Store, ws: string, id: string, lists: seq<(Key, Data)>)
    ensures var detail := DetailKey(ws, id);
            var fromDetail := detail in c && c[detail].Detail? && c[detail].issue.parentId.Some?;
            && (fromDetail ==> ParentHint(c, ws, id, lists) == c[detail].issue.parentId)
            && (!fromDetail && lists == [] ==> ParentHint(c, ws, id, lists) == None)
            && (!fromDetail && lists != [] && lists[0].1.Buckets? && Coherent(lists[0].1.list) ==>
                  forall s, n: nat :: Stands(lists[0].1.list, id, s, n) ==>
                    ParentHint(c, ws, id, lists) == lists[0].1.list[s].issues[n].parentId)
            && (!fromDetail && lists != [] && lists[0].1.Buckets? && ParentHint(c, ws, id, lists).Some? ==>
                  exists s, n: nat :: Stands(lists[0].1.list, id, s, n))
  {
    if lists != [] && lists[0].1.Buckets? {
      var list := lists[0].1.list;
      NotLocated(list, id);
      hide Locate, DetailKey;
      forall s, n: nat | Coherent(list) && Stands(list, id, s, n)
        ensures Locate(list, id) == Some(Location(s, list[s].issues[n]))
      {
        StandsOnce(list, id, s, n);
      }
    }
  }
}
