/** WebSocket events as cache steps (packages/core/issues/ws-updaters.ts), and what the echo of a
    client's own change does to the cache. */
module IssueEvents {
  import opened Text
  import opened IssueBuckets
  import IssueRuns
  import opened QueryCache
  import opened IssueMutations

  method OnIssueCreated(qc: QueryClient, ws: string, issue: Issue)
    modifies qc
    ensures qc.cache == EditKeys(old(qc.cache), KeysUnder(old(qc.cache), ListPrefix(ws)), Insert(issue))
  {
    var entries := qc.GetQueriesData(ListPrefix(ws));
    EditEntries(qc, entries, Insert(issue));
  }

  predicate ParentChanged(patch: Patch, oldParent: Option<string>) {
    patch.parentId.Some? && patch.parentId.value != oldParent
  }

  /** The caches an update event writes: every list, the detail, and the children of a parent that stays. */
  function HeardKeys(c: Store, ws: string, id: string, patch: Patch, oldParent: Option<string>): set<Key> {
    KeysUnder(c, ListPrefix(ws)) + {DetailKey(ws, id)}
    + if Truthy(oldParent) && !ParentChanged(patch, oldParent) then {ChildrenKey(ws, oldParent.value)} else {}
  }

  /** What an update event does to the store, given the order in which it read the lists. */
  function Heard(c: Store, ws: string, id: string, patch: Patch, lists: seq<(Key, Data)>): Store {
    EditKeys(c, HeardKeys(c, ws, id, patch, ParentHint(c, ws, id, lists)), Change(id, patch))
  }

  method OnIssueUpdated(qc: QueryClient, ws: string, id: string, patch: Patch) returns (ghost lists: seq<(Key, Data)>)
    modifies qc
    ensures Snapshot(lists, old(qc.cache), ListPrefix(ws))
    ensures qc.cache == Heard(old(qc.cache), ws, id, patch, lists)
  {
    hide Edited, ParentHint;
    var listQueries := qc.GetQueriesData(ListPrefix(ws));
    lists := listQueries;
    var oldParent := ParentHint(qc.cache, ws, id, listQueries);
    ghost var c := qc.cache;
    EditEntries(qc, listQueries, Change(id, patch));
    EditOne(qc, DetailKey(ws, id), Change(id, patch));
    UpdateKeysApart(c, ws, id, oldParent);
    if Truthy(oldParent) && !ParentChanged(patch, oldParent) {
      EditOne(qc, ChildrenKey(ws, oldParent.value), Change(id, patch));
    }
  }

  function LabelPatch(labels: seq<string>): Patch {
    Patch(None, None, None, Some(labels))
  }

  /** Everything that shows an issue's labels: the lists, the detail, the issue's label list, the Gantt lists. */
  function LabelKeys(c: Store, ws: string, id: string): set<Key> {
    KeysUnder(c, ListPrefix(ws)) + {DetailKey(ws, id)} + {LabelsKey(ws, id)} + KeysUnder(c, GanttPrefix(ws))
  }

  method OnIssueLabelsChanged(qc: QueryClient, ws: string, id: string, labels: seq<string>)
    modifies qc
    ensures qc.cache == EditKeys(old(qc.cache), LabelKeys(old(qc.cache), ws, id), Change(id, LabelPatch(labels)))
  {
    hide Edited;
    var e := Change(id, LabelPatch(labels));
    ghost var c := qc.cache;
    var entries := qc.GetQueriesData(ListPrefix(ws));
    EditEntries(qc, entries, e);
    EditOne(qc, DetailKey(ws, id), e);
    EditOne(qc, LabelsKey(ws, id), e);
    ghost var d := qc.cache;
    LabelKeysApart(c, ws, id);
    assert d == EditKeys(c, KeysUnder(c, ListPrefix(ws)) + {DetailKey(ws, id)} + {LabelsKey(ws, id)}, e);
    var gantt := qc.GetQueriesData(GanttPrefix(ws));
    assert KeysUnder(d, GanttPrefix(ws)) == KeysUnder(c, GanttPrefix(ws));
    EditEntries(qc, gantt, e);
  }

  lemma LabelKeysApart(c: Store, ws: string, id: string)
    ensures forall k :: k in KeysUnder(c, ListPrefix(ws)) ==> k != DetailKey(ws, id) && k != LabelsKey(ws, id)
    ensures DetailKey(ws, id) != LabelsKey(ws, id)
    ensures forall k :: k in KeysUnder(c, GanttPrefix(ws)) ==>
              k !in KeysUnder(c, ListPrefix(ws)) && k != DetailKey(ws, id) && k != LabelsKey(ws, id)
  {
    assert DetailKey(ws, id)[0] == Str("issues") && DetailKey(ws, id)[2] == Str("detail");
    assert LabelsKey(ws, id)[0] == Str("labels");
    forall k | k in KeysUnder(c, ListPrefix(ws))
      ensures k[0] == Str("issues") && k[2] == Str("list")
    {
      assert k[0] == ListPrefix(ws)[0] && k[2] == ListPrefix(ws)[2];
    }
    forall k | k in KeysUnder(c, GanttPrefix(ws))
      ensures k[0] == Str("issues") && k[2] == Str("project-gantt")
    {
      assert k[0] == GanttPrefix(ws)[0] && k[2] == GanttPrefix(ws)[2];
    }
  }

  // ---------------------------------------------------------------------------
  // Echoes
  // ---------------------------------------------------------------------------

  ghost predicate CoherentLists(c: Store) {
    forall k :: k in c && c[k].Buckets? ==> Coherent(c[k].list)
  }

  lemma {:induction false} MergeWhereTwice(issues: seq<Issue>, ids: set<string>, patch: Patch)
    ensures MergeWhere(MergeWhere(issues, ids, patch), ids, patch) == MergeWhere(issues, ids, patch)
  {
    if issues != [] {
      MergeWhereTwice(issues[1..], ids, patch);
      var head := if issues[0].id in ids then Merge(issues[0], patch) else issues[0];
      assert MergeWhere(issues, ids, patch) == [head] + MergeWhere(issues[1..], ids, patch);
    }
  }

  lemma ChangeTwice(d: Data, id: string, patch: Patch)
    requires d.Buckets? ==> Coherent(d.list)
    ensures Edited(Change(id, patch), Edited(Change(id, patch), d)) == Edited(Change(id, patch), d)
  {
    hide Coherent, PatchIssue, MergeWhere;
    match d
    case Buckets(list) => IssueRuns.PatchTwice(list, id, patch);
    case IssueList(issues) => MergeWhereTwice(issues, {id}, patch);
    case _ =>
  }

  /** Hearing of a creation again, or of the client's own one, changes nothing. */
  lemma CreatedTwice(c: Store, ws: string, issue: Issue)
    ensures var d := EditKeys(c, KeysUnder(c, ListPrefix(ws)), Insert(issue));
            EditKeys(d, KeysUnder(d, ListPrefix(ws)), Insert(issue)) == d
  {
    hide AddIssue;
    var d := EditKeys(c, KeysUnder(c, ListPrefix(ws)), Insert(issue));
    forall k | k in c
      ensures Edited(Insert(issue), Edited(Insert(issue), c[k])) == Edited(Insert(issue), c[k])
    {
      if c[k].Buckets? {
        IssueRuns.AddTwice(c[k].list, issue);
      }
    }
  }

  /** Hearing of labels again changes nothing. */
  lemma LabelsTwice(c: Store, ws: string, id: string, labels: seq<string>)
    requires CoherentLists(c)
    ensures var e := Change(id, LabelPatch(labels));
            var d := EditKeys(c, LabelKeys(c, ws, id), e);
            EditKeys(d, LabelKeys(d, ws, id), e) == d
  {
    hide Edited, Coherent;
    var e := Change(id, LabelPatch(labels));
    var d := EditKeys(c, LabelKeys(c, ws, id), e);
    SameKeys(c, LabelKeys(c, ws, id), e, ListPrefix(ws));
    SameKeys(c, LabelKeys(c, ws, id), e, GanttPrefix(ws));
    forall k | k in c
      ensures Edited(e, Edited(e, c[k])) == Edited(e, c[k])
    {
      ChangeTwice(c[k], id, LabelPatch(labels));
    }
  }

  /** The parent found after a patch that leaves the parent alone was found before it. */
  lemma LocatedParentKept(list: Cache, id: string, patch: Patch)
    requires Coherent(list) && patch.parentId.None?
    ensures ParentOfLocated(Buckets(PatchIssue(list, id, patch)), id).Some? ==>
              ParentOfLocated(Buckets(PatchIssue(list, id, patch)), id) == ParentOfLocated(Buckets(list), id)
  {
    if Locate(list, id).Some? && Locate(PatchIssue(list, id, patch), id).Some? {
      IssueRuns.PatchedLocation(list, id, patch);
    }
  }

  lemma HintKept(c: Store, d: Store, ws: string, id: string, patch: Patch, keys: set<Key>, before: seq<(Key, Data)>,
      after: seq<(Key, Data)>)
    requires patch.parentId.None? && CoherentLists(c)
    requires d == EditKeys(c, keys, Change(id, patch)) && DetailKey(ws, id) in keys
    requires KeysUnder(c, ListPrefix(ws)) <= keys
    requires Snapshot(before, c, ListPrefix(ws)) && Snapshot(after, d, ListPrefix(ws))
    requires before != [] ==> after != [] && after[0].0 == before[0].0
    ensures ParentHint(d, ws, id, after).Some? ==> ParentHint(d, ws, id, after) == ParentHint(c, ws, id, before)
  {
    hide Coherent, PatchIssue, Locate, EditKeys;
    DetailParentKept(c, d, ws, id, patch, keys);
    assert before == [] ==> KeysOf(before) == {};
    if after != [] {
      SameKeys(c, keys, Change(id, patch), ListPrefix(ws));
      assert after[0].0 in KeysOf(after);
      EditedAt(c, keys, Change(id, patch), after[0].0);
      if c[after[0].0].Buckets? {
        LocatedParentKept(c[after[0].0].list, id, patch);
      }
    }
  }

  lemma DetailParentKept(c: Store, d: Store, ws: string, id: string, patch: Patch, keys: set<Key>)
    requires patch.parentId.None?
    requires d == EditKeys(c, keys, Change(id, patch)) && DetailKey(ws, id) in keys
    ensures ParentOfDetail(Get(d, DetailKey(ws, id))) == ParentOfDetail(Get(c, DetailKey(ws, id)))
  {
  }

  lemma SameKeys(c: Store, keys: set<Key>, e: Edit, prefix: Key)
    ensures KeysUnder(EditKeys(c, keys, e), prefix) == KeysUnder(c, prefix)
  {
    hide Edited;
  }

  lemma EditedAt(c: Store, keys: set<Key>, e: Edit, k: Key)
    requires k in c
    ensures k in EditKeys(c, keys, e)
    ensures EditKeys(c, keys, e)[k] == if k in keys then Edited(e, c[k]) else c[k]
  {
    hide Edited;
  }

  /** The server's echo of an update that does not move the issue to another parent finds everything
      already as it says: after the optimistic step the whole store is unchanged by it. */
  lemma UpdateAbsorbsItsEcho(
    c: Store, d: Store, ws: string, id: string, patch: Patch, ctx: UpdateContext, lists: seq<(Key, Data)>)
    requires Updated(c, d, ws, id, patch, ctx) && CoherentLists(c) && patch.parentId.None?
    requires Snapshot(lists, d, ListPrefix(ws))
    requires ctx.prevLists != [] ==> lists != [] && lists[0].0 == ctx.prevLists[0].0
    ensures Heard(d, ws, id, patch, lists) == d
  {
    hide ParentHint, Edited, Coherent, ParentKeys;
    var e := Change(id, patch);
    var keys := KeysUnder(c, ListPrefix(ws)) + {DetailKey(ws, id)} + ParentKeys(ws, ctx.parentId);
    var hint := ParentHint(d, ws, id, lists);
    HintKept(c, d, ws, id, patch, keys, ctx.prevLists, lists);
    SameKeys(c, keys, e, ListPrefix(ws));
    HeardWithin(c, d, ws, id, patch, ctx, hint, keys);
    forall k | k in c && k in HeardKeys(d, ws, id, patch, hint)
      ensures Edited(e, d[k]) == d[k]
    {
      EditedAt(c, keys, e, k);
      ChangeTwice(c[k], id, patch);
    }
  }

  lemma HeardWithin(c: Store, d: Store, ws: string, id: string, patch: Patch, ctx: UpdateContext,
      hint: Option<string>, keys: set<Key>)
    requires Resolved(c, ws, id, ctx.prevLists, ctx.parentId)
    requires hint.Some? ==> hint == ParentHint(c, ws, id, ctx.prevLists)
    requires KeysUnder(d, ListPrefix(ws)) == KeysUnder(c, ListPrefix(ws))
    requires keys == KeysUnder(c, ListPrefix(ws)) + {DetailKey(ws, id)} + ParentKeys(ws, ctx.parentId)
    ensures HeardKeys(d, ws, id, patch, hint) <= keys
  {
    hide ParentHint;
  }

  /** The children cache holds the issue in a form that the patch alters. */
  predicate Stale(data: Data, id: string, patch: Patch) {
    data.IssueList? && exists i :: i in data.issues && i.id == id && Merge(i, patch) != i
  }

  lemma {:induction false} FixedIffNotStale(issues: seq<Issue>, id: string, patch: Patch)
    ensures MergeWhere(issues, {id}, patch) != issues <==> Stale(IssueList(issues), id, patch)
  {
    hide Merge;
    if issues != [] {
      var head, tail := issues[0], issues[1..];
      FixedIffNotStale(tail, id, patch);
      assert issues == [head] + tail;
      var first := if head.id in {id} then Merge(head, patch) else head;
      assert MergeWhere(issues, {id}, patch) == [first] + MergeWhere(tail, {id}, patch);
      assert ([first] + MergeWhere(tail, {id}, patch))[1..] == MergeWhere(tail, {id}, patch);
    }
  }

  /** What the echo edits beyond the lists and the detail: the children of the parent it finds, and only when
      the patch does not contradict that parent. */
  function EchoParent(patch: Patch, hint: Option<string>): set<string> {
    if Truthy(hint) && !ParentChanged(patch, hint) then {hint.value} else {}
  }

  lemma EchoEdits(c: Store, d: Store, ws: string, id: string, patch: Patch, ctx: UpdateContext, hint: Option<string>)
    requires Updated(c, d, ws, id, patch, ctx) && CoherentLists(c)
    ensures EditKeys(d, HeardKeys(d, ws, id, patch, hint), Change(id, patch)) == d <==>
            forall q :: q in EchoParent(patch, hint) && ChildrenKey(ws, q) in d ==>
              Edited(Change(id, patch), d[ChildrenKey(ws, q)]) == d[ChildrenKey(ws, q)]
  {
    hide ParentHint, Edited, Coherent, ParentKeys, ChildrenKey, Resolved;
    var e := Change(id, patch);
    var keys := KeysUnder(c, ListPrefix(ws)) + {DetailKey(ws, id)} + ParentKeys(ws, ctx.parentId);
    SameKeys(c, keys, e, ListPrefix(ws));
    forall k | k in d && k in keys
      ensures Edited(e, d[k]) == d[k]
    {
      EditedAt(c, keys, e, k);
      ChangeTwice(c[k], id, patch);
    }
    FixedIffAllFixed(d, HeardKeys(d, ws, id, patch, hint), e);
  }

  lemma FixedIffAllFixed(d: Store, keys: set<Key>, e: Edit)
    ensures EditKeys(d, keys, e) == d <==> forall k :: k in keys && k in d ==> Edited(e, d[k]) == d[k]
  {
    hide Edited;
    if EditKeys(d, keys, e) == d {
      forall k | k in keys && k in d
        ensures Edited(e, d[k]) == d[k]
      {
        assert EditKeys(d, keys, e)[k] == d[k];
      }
    }
  }

  lemma ListAtChildrenKey(c: Store, d: Store, ws: string, keys: set<Key>, e: Edit, q: string)
    requires WellTyped(c, ws) && d == EditKeys(c, keys, e) && ChildrenKey(ws, q) in d && e.Change?
    ensures d[ChildrenKey(ws, q)].IssueList?
  {
    ChildrenKeyIs(ws, []);
    EditedAt(c, keys, e, ChildrenKey(ws, q));
  }

  /** The echo of a patch that names a parent changes the store if and only if it finds that very parent, and the
      parent's loaded children cache holds the issue in a form the patch alters: the optimistic step edits the
      children of the parent the issue had, not of the one it gets. Clearing the parent never does. */
  lemma MoveEchoChangesIff(
    c: Store, d: Store, ws: string, id: string, patch: Patch, ctx: UpdateContext, lists: seq<(Key, Data)>)
    requires Updated(c, d, ws, id, patch, ctx) && WellTyped(c, ws) && CoherentLists(c) && patch.parentId.Some?
    ensures Heard(d, ws, id, patch, lists) != d <==>
            var q := patch.parentId.value;
            && Truthy(q) && ParentHint(d, ws, id, lists) == q
            && ChildrenKey(ws, q.value) in d && Stale(d[ChildrenKey(ws, q.value)], id, patch)
    ensures patch.parentId.value == None ==> Heard(d, ws, id, patch, lists) == d
    ensures DetailKey(ws, id) in c && patch.parentId.value.Some? ==>
        ParentHint(d, ws, id, lists) == patch.parentId.value
  {
    hide ParentHint, Stale, WellTyped, Resolved, MergeWhere;
    var hint, q, e := ParentHint(d, ws, id, lists), patch.parentId.value, Change(id, patch);
    EchoEdits(c, d, ws, id, patch, ctx, hint);
    if Truthy(q) && ChildrenKey(ws, q.value) in d {
      var keys := KeysUnder(c, ListPrefix(ws)) + {DetailKey(ws, id)} + ParentKeys(ws, ctx.parentId);
      ListAtChildrenKey(c, d, ws, keys, e, q.value);
      FixedIffNotStale(d[ChildrenKey(ws, q.value)].issues, id, patch);
    }
    if DetailKey(ws, id) in c && q.Some? {
      MovedHint(c, d, ws, id, patch, ctx, lists);
    }
  }

  lemma MovedHint(
    c: Store, d: Store, ws: string, id: string, patch: Patch, ctx: UpdateContext, lists: seq<(Key, Data)>)
    requires Updated(c, d, ws, id, patch, ctx) && WellTyped(c, ws)
    requires DetailKey(ws, id) in c && patch.parentId.Some? && patch.parentId.value.Some?
    ensures ParentHint(d, ws, id, lists) == patch.parentId.value
  {
    hide Resolved, ParentKeys;
    ChildrenKeyIs(ws, []);
    assert c[DetailKey(ws, id)].Detail?;
    var keys := KeysUnder(c, ListPrefix(ws)) + {DetailKey(ws, id)} + ParentKeys(ws, ctx.parentId);
    EditedAt(c, keys, Change(id, patch), DetailKey(ws, id));
    assert d[DetailKey(ws, id)] == Detail(Merge(c[DetailKey(ws, id)].issue, patch));
  }

  /** An issue that was moved away, still listed with its old parent's children, and is now moved back: the echo
      of the second move changes those children, which the optimistic step left alone. */
  lemma MovedBackIsStale(ws: string, i: Issue, p: string, q: string)
    requires p != q && p != "" && q != "" && i.parentId == Some(p)
    ensures var c: Store := map[DetailKey(ws, i.id) := Detail(i), ChildrenKey(ws, q) := IssueList([i])];
            var patch := Patch(None, Some(Some(q)), None, None);
            var d := EditKeys(c, {DetailKey(ws, i.id), ChildrenKey(ws, p)}, Change(i.id, patch));
            && WellTyped(c, ws)
            && Updated(c, d, ws, i.id, patch, UpdateContext([], Some(Detail(i)), None, Some(p)))
            && Heard(d, ws, i.id, patch, []) != d
  {
    var detail, children := DetailKey(ws, i.id), ChildrenKey(ws, q);
    var c: Store := map[detail := Detail(i), children := IssueList([i])];
    var patch := Patch(None, Some(Some(q)), None, None);
    var ctx := UpdateContext([], Some(Detail(i)), None, Some(p));
    var d := EditKeys(c, {detail, ChildrenKey(ws, p)}, Change(i.id, patch));
    assert children[3] == Str(q) && ChildrenKey(ws, p)[3] == Str(p);
    ChildrenKeyIs(ws, []);
    Apart(ws, detail);
    Apart(ws, children);
    TwoKeys(c, ws, detail, children);
    hide DetailPrefix, ChildrenPrefix, ListPrefix, MyPrefix;
    assert Updated(c, d, ws, i.id, patch, ctx);
    assert [i][0] in [i] && Merge(i, patch) != i;
    assert d[children] == IssueList([i]);
    MoveEchoChangesIff(c, d, ws, i.id, patch, ctx, []);
  }

  lemma TwoKeys(c: Store, ws: string, detail: Key, children: Key)
    requires c.Keys == {detail, children} && DetailPrefix(ws) <= detail && ChildrenPrefix(ws) <= children
    ensures KeysUnder(c, ListPrefix(ws)) == {} == KeysOf([])
  {
    Apart(ws, detail);
    Apart(ws, children);
  }
}
