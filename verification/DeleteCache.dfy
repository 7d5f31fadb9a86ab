/** What a deleted issue leaves in the cache: metadata collection, pruning and cleanup
    (packages/core/issues/delete-cache.ts). */
module DeleteCache {
  import opened Text
  import opened IssueBuckets
  import opened QueryCache
  import opened IssueMutations

  // ---------------------------------------------------------------------------
  // Collecting the parents whose children caches may hold the issue
  // ---------------------------------------------------------------------------

  function OfParent(parent: Option<string>): set<string> {
    if Truthy(parent) then {parent.value} else {}
  }

  function OfListEntry(d: Data, id: string): set<string> {
    OfParent(ParentOfLocated(d, id))
  }

  /** A children cache that holds the issue names its parent twice: in the issue and in the key. */
  function OfChildrenEntry(k: Key, d: Data, id: string): set<string> {
    if HoldsChild(d, id) && k != [] then
      OfParent(Find(d.issues, id).value.parentId)
      + (match k[|k| - 1] case Str(p) => OfParent(Some(p)) case Obj(_) => {})
    else {}
  }

  function OfLists(c: Store, prefix: Key, id: string): set<string> {
    set k, p | k in KeysUnder(c, prefix) && p in OfListEntry(c[k], id) :: p
  }

  function OfChildren(c: Store, ws: string, id: string): set<string> {
    set k, p | k in KeysUnder(c, ChildrenPrefix(ws)) && p in OfChildrenEntry(k, c[k], id) :: p
  }

  function Parents(c: Store, ws: string, id: string): set<string> {
    OfParent(ParentOfDetail(Get(c, DetailKey(ws, id))))
    + OfLists(c, ListPrefix(ws), id) + OfLists(c, MyPrefix(ws), id) + OfChildren(c, ws, id)
  }

  /** Every entry that collection reads as a bucketed list is one. A loaded assignee-grouped board
      shares the my-issues prefix and has no buckets: reading it throws. */
  ghost predicate Bucketed(c: Store, ws: string) {
    forall k :: k in c && (ListPrefix(ws) <= k || MyPrefix(ws) <= k) ==> c[k].Buckets?
  }

  /** None stands for the TypeError of reading a status bucket of a grouped response. */
  method CollectFromLists(entries: seq<(Key, Data)>, id: string) returns (parents: Option<set<string>>)
    ensures parents.None? <==> exists i :: 0 <= i < |entries| && !entries[i].1.Buckets?
    ensures parents.Some? ==> parents.value == set i, p | 0 <= i < |entries| && p in OfListEntry(entries[i].1, id) :: p
  {
    hide OfListEntry;
    var found: set<string> := {};
    for i := 0 to |entries|
      invariant forall j :: 0 <= j < i ==> entries[j].1.Buckets?
      invariant found == set j, p | 0 <= j < i && p in OfListEntry(entries[j].1, id) :: p
    {
      if !entries[i].1.Buckets? {
        return None;
      }
      found := found + OfListEntry(entries[i].1, id);
    }
    return Some(found);
  }

  method CollectFromChildren(entries: seq<(Key, Data)>, id: string) returns (parents: set<string>)
    ensures parents == set i, p | 0 <= i < |entries| && p in OfChildrenEntry(entries[i].0, entries[i].1, id) :: p
  {
    hide OfChildrenEntry;
    parents := {};
    for i := 0 to |entries|
      invariant parents == set j, p | 0 <= j < i && p in OfChildrenEntry(entries[j].0, entries[j].1, id) :: p
    {
      parents := parents + OfChildrenEntry(entries[i].0, entries[i].1, id);
    }
  }

  lemma ListsOfSnapshot(entries: seq<(Key, Data)>, c: Store, prefix: Key, id: string)
    requires Snapshot(entries, c, prefix)
    ensures (set i, p | 0 <= i < |entries| && p in OfListEntry(entries[i].1, id) :: p) == OfLists(c, prefix, id)
    ensures (exists i :: 0 <= i < |entries| && !entries[i].1.Buckets?) <==>
            exists k :: k in KeysUnder(c, prefix) && !c[k].Buckets?
  {
    hide OfListEntry;
    forall k | k in KeysUnder(c, prefix)
      ensures exists i :: 0 <= i < |entries| && entries[i] == (k, c[k])
    {
      assert k in KeysOf(entries);
      var i :| 0 <= i < |entries| && entries[i].0 == k;
      assert entries[i] == (k, c[k]);
    }
    forall i | 0 <= i < |entries|
      ensures entries[i].0 in KeysUnder(c, prefix) && c[entries[i].0] == entries[i].1
    {
    }
    forall p | p in OfLists(c, prefix, id)
      ensures p in (set i, p | 0 <= i < |entries| && p in OfListEntry(entries[i].1, id) :: p)
    {
      var k :| k in KeysUnder(c, prefix) && p in OfListEntry(c[k], id);
      var i :| 0 <= i < |entries| && entries[i] == (k, c[k]);
    }
    if k :| k in KeysUnder(c, prefix) && !c[k].Buckets? {
      var i :| 0 <= i < |entries| && entries[i] == (k, c[k]);
    }
  }

  lemma ChildrenOfSnapshot(entries: seq<(Key, Data)>, c: Store, ws: string, id: string)
    requires Snapshot(entries, c, ChildrenPrefix(ws))
    ensures (set i, p | 0 <= i < |entries| && p in OfChildrenEntry(entries[i].0, entries[i].1, id) :: p)
         == OfChildren(c, ws, id)
  {
    hide OfChildrenEntry;
    forall p | p in OfChildren(c, ws, id)
      ensures p in (set i, p | 0 <= i < |entries| && p in OfChildrenEntry(entries[i].0, entries[i].1, id) :: p)
    {
      var k :| k in KeysUnder(c, ChildrenPrefix(ws)) && p in OfChildrenEntry(k, c[k], id);
      assert k in KeysOf(entries);
      var i :| 0 <= i < |entries| && entries[i].0 == k;
    }
  }

  method CollectDeletedIssueCacheMetadata(qc: QueryClient, ws: string, id: string)
    returns (parents: Option<set<string>>)
    ensures parents.Some? <==> Bucketed(qc.cache, ws)
    ensures parents.Some? ==> parents.value == Parents(qc.cache, ws, id)
  {
    hide OfLists, OfChildren, OfListEntry, OfChildrenEntry, ParentOfDetail, OfParent;
    var c := qc.cache;
    var fromDetail := OfParent(ParentOfDetail(qc.GetQueryData(DetailKey(ws, id))));
    var lists := qc.GetQueriesData(ListPrefix(ws));
    ListsOfSnapshot(lists, c, ListPrefix(ws), id);
    var fromLists := CollectFromLists(lists, id);
    if fromLists.None? {
      return None;
    }
    var myLists := qc.GetQueriesData(MyPrefix(ws));
    ListsOfSnapshot(myLists, c, MyPrefix(ws), id);
    var fromMyLists := CollectFromLists(myLists, id);
    if fromMyLists.None? {
      return None;
    }
    var children := qc.GetQueriesData(ChildrenPrefix(ws));
    ChildrenOfSnapshot(children, c, ws, id);
    var fromChildren := CollectFromChildren(children, id);
    return Some(fromDetail + fromLists.value + fromMyLists.value + fromChildren);
  }

  // ---------------------------------------------------------------------------
  // Pruning
  // ---------------------------------------------------------------------------

  function ListKeys(c: Store, ws: string): set<Key> {
    KeysUnder(c, ListPrefix(ws)) + KeysUnder(c, MyPrefix(ws))
  }

  function ChildrenKeys(ws: string, parents: set<string>): set<Key> {
    set p | p in parents :: ChildrenKey(ws, p)
  }

  /** Prunes the entries in turn; false when one of them has no buckets, which throws. */
  method PruneEntries(qc: QueryClient, entries: seq<(Key, Data)>, id: string) returns (ok: bool, ghost done: nat)
    requires forall i :: 0 <= i < |entries| ==> entries[i].0 in qc.cache && qc.cache[entries[i].0] == entries[i].1
    modifies qc
    ensures done <= |entries| && qc.cache == EditKeys(old(qc.cache), KeysOf(entries[..done]), Prune(id))
    ensures ok <==> forall i :: 0 <= i < |entries| ==> entries[i].1.Buckets?
    ensures ok ==> done == |entries|
  {
    hide Edited;
    done := 0;
    for i := 0 to |entries|
      invariant done == i && qc.cache == EditKeys(old(qc.cache), KeysOf(entries[..i]), Prune(id))
      invariant forall j :: 0 <= j < i ==> entries[j].1.Buckets?
    {
      var (key, data) := entries[i];
      if !data.Buckets? {
        ok := false;
        return;
      }
      assert entries[..i + 1] == entries[..i] + [entries[i]];
      KeysOfSnoc(entries[..i], entries[i]);
      qc.SetQueryData(key, Some(Edited(Prune(id), data)));
      done := i + 1;
    }
    ok := true;
  }

  lemma KeysOfFront(entries: seq<(Key, Data)>, n: nat)
    requires n <= |entries|
    ensures KeysOf(entries[..n]) <= KeysOf(entries)
    ensures n == |entries| ==> KeysOf(entries[..n]) == KeysOf(entries)
  {
    assert entries[..|entries|] == entries;
    forall k | k in KeysOf(entries[..n])
      ensures k in KeysOf(entries)
    {
      var i :| 0 <= i < n && entries[..n][i].0 == k;
      assert entries[i].0 == k;
    }
  }

  lemma SnapshotBucketed(entries: seq<(Key, Data)>, c: Store, prefix: Key)
    requires Snapshot(entries, c, prefix)
    ensures (forall i :: 0 <= i < |entries| ==> entries[i].1.Buckets?) <==>
            forall k :: k in KeysUnder(c, prefix) ==> c[k].Buckets?
  {
    ListsOfSnapshot(entries, c, prefix, "");
  }

  /** Where a pass over the lists stops: the my-issues lists come after all the others. */
  ghost predicate PrunedSome(c: Store, d: Store, ws: string, id: string) {
    exists keys :: keys <= ListKeys(c, ws) && d == EditKeys(c, keys, Prune(id)) && ListsFirst(c, ws, keys)
  }

  ghost predicate ListsFirst(c: Store, ws: string, keys: set<Key>) {
    (forall k :: k in KeysUnder(c, ListPrefix(ws)) ==> c[k].Buckets?) ==> KeysUnder(c, ListPrefix(ws)) <= keys
  }

  method PruneListCaches(qc: QueryClient, ws: string, id: string) returns (ok: bool)
    modifies qc
    ensures ok <==> Bucketed(old(qc.cache), ws)
    ensures ok ==> qc.cache == EditKeys(old(qc.cache), ListKeys(old(qc.cache), ws), Prune(id))
    ensures PrunedSome(old(qc.cache), qc.cache, ws, id)
  {
    hide Edited, Snapshot;
    ghost var c := qc.cache;
    forall k | k in KeysUnder(c, ListPrefix(ws))
      ensures !(MyPrefix(ws) <= k)
    {
      Apart(ws, k);
    }
    var lists := qc.GetQueriesData(ListPrefix(ws));
    SnapshotBucketed(lists, c, ListPrefix(ws));
    SnapshotFits(lists, c, ListPrefix(ws));
    ghost var done: nat;
    ok, done := PruneEntries(qc, lists, id);
    KeysOfFront(lists, done);
    if !ok {
      return;
    }
    ghost var d := qc.cache;
    var myLists := qc.GetQueriesData(MyPrefix(ws));
    assert KeysUnder(d, MyPrefix(ws)) == KeysUnder(c, MyPrefix(ws));
    SnapshotBucketed(myLists, d, MyPrefix(ws));
    SnapshotFits(myLists, d, MyPrefix(ws));
    ok, done := PruneEntries(qc, myLists, id);
    KeysOfFront(myLists, done);
    hide KeysOf;
    EditMore(c, KeysUnder(c, ListPrefix(ws)), KeysOf(myLists[..done]), Prune(id));
  }

  lemma EditMore(c: Store, a: set<Key>, b: set<Key>, e: Edit)
    requires forall k :: k in a && k in c ==> k !in b
    ensures EditKeys(EditKeys(c, a, e), b, e) == EditKeys(c, a + b, e)
  {
    hide Edited;
  }

  lemma SnapshotFits(entries: seq<(Key, Data)>, c: Store, prefix: Key)
    requires Snapshot(entries, c, prefix)
    ensures forall i :: 0 <= i < |entries| ==> entries[i].0 in c && c[entries[i].0] == entries[i].1
    ensures KeysOf(entries) == KeysUnder(c, prefix)
  {
  }

  method PruneChildrenCaches(qc: QueryClient, ws: string, id: string, parents: set<string>)
    modifies qc
    ensures qc.cache == EditKeys(old(qc.cache), ChildrenKeys(ws, parents), Prune(id))
  {
    hide Edited;
    ghost var c := qc.cache;
    var rest := parents;
    assert ChildrenKeys(ws, parents - rest) == {};
    while rest != {}
      invariant rest <= parents
      invariant qc.cache == EditKeys(c, ChildrenKeys(ws, parents - rest), Prune(id))
      decreases |rest|
    {
      var p :| p in rest;
      OneMoreParent(ws, parents - rest, p);
      EditOne(qc, ChildrenKey(ws, p), Prune(id));
      assert parents - (rest - {p}) == (parents - rest) + {p};
      rest := rest - {p};
    }
    assert parents - rest == parents;
  }

  lemma OneMoreParent(ws: string, parents: set<string>, p: string)
    requires p !in parents
    ensures ChildrenKey(ws, p) !in ChildrenKeys(ws, parents)
    ensures ChildrenKeys(ws, parents + {p}) == ChildrenKeys(ws, parents) + {ChildrenKey(ws, p)}
  {
    forall q | q in parents
      ensures ChildrenKey(ws, q) != ChildrenKey(ws, p)
    {
      assert ChildrenKey(ws, q)[3] == Str(q) && ChildrenKey(ws, p)[3] == Str(p);
    }
  }

  lemma ListsAndChildrenApart(c: Store, ws: string, parents: set<string>)
    ensures forall k :: k in ListKeys(c, ws) ==> k !in ChildrenKeys(ws, parents)
  {
    ChildrenKeyIs(ws, []);
    forall k | k in ListKeys(c, ws)
      ensures !(ChildrenPrefix(ws) <= k)
    {
      Apart(ws, k);
    }
  }

  /** All caches with the issue pruned. */
  function Pruned(c: Store, ws: string, id: string, parents: set<string>): Store {
    EditKeys(c, ListKeys(c, ws) + ChildrenKeys(ws, parents), Prune(id))
  }

  method PruneIssue(qc: QueryClient, ws: string, id: string, parents: set<string>)
    requires Bucketed(qc.cache, ws)
    modifies qc
    ensures qc.cache == Pruned(old(qc.cache), ws, id, parents)
  {
    hide Edited;
    ghost var c := qc.cache;
    var ok := PruneListCaches(qc, ws, id);
    PruneChildrenCaches(qc, ws, id, parents);
    ListsAndChildrenApart(c, ws, parents);
  }

  // ---------------------------------------------------------------------------
  // Cleanup: nothing of the issue is left, nothing else is touched
  // ---------------------------------------------------------------------------

  /** The prefixes that belong to one issue. */
  function OwnPrefixes(ws: string, id: string): seq<Key> {
    [DetailKey(ws, id), ScopedKey("timeline", id), ScopedKey("reactions", id), ScopedKey("subscribers", id),
     ScopedKey("usage", id), ScopedKey("attachments", id), ScopedKey("tasks", id), ChildrenKey(ws, id),
     LabelsKey(ws, id)]
  }

  function RemovedAll(c: Store, prefixes: seq<Key>): Store {
    map k | k in c && (forall i :: 0 <= i < |prefixes| ==> !(prefixes[i] <= k)) :: c[k]
  }

  method RemoveAll(qc: QueryClient, prefixes: seq<Key>)
    modifies qc
    ensures qc.cache == RemovedAll(old(qc.cache), prefixes)
  {
    for i := 0 to |prefixes|
      invariant qc.cache == RemovedAll(old(qc.cache), prefixes[..i])
    {
      assert prefixes[..i + 1] == prefixes[..i] + [prefixes[i]];
      qc.RemoveQueries(prefixes[i]);
    }
    assert prefixes[..|prefixes|] == prefixes;
  }

  /** Cleanup, with the metadata passed in or else freshly collected. A my-issues entry without buckets makes
      it throw: collection before any write, pruning after some lists have been pruned. */
  method CleanupDeletedIssueCaches(qc: QueryClient, ws: string, id: string, metadata: Option<set<string>>)
    returns (ok: bool)
    modifies qc
    ensures ok <==> Bucketed(old(qc.cache), ws)
    ensures ok ==> qc.cache == Cleaned(old(qc.cache), ws, id, Or(metadata, Parents(old(qc.cache), ws, id)))
    ensures !ok && metadata.None? ==> qc.cache == old(qc.cache)
    ensures !ok && metadata.Some? ==> PrunedSome(old(qc.cache), qc.cache, ws, id)
  {
    hide Parents, Edited;
    ghost var c := qc.cache;
    var given := metadata;
    if given.None? {
      given := CollectDeletedIssueCacheMetadata(qc, ws, id);
      if given.None? {
        return false;
      }
    }
    ok := PruneListCaches(qc, ws, id);
    if !ok {
      return;
    }
    PruneChildrenCaches(qc, ws, id, given.value);
    ListsAndChildrenApart(c, ws, given.value);
    RemoveAll(qc, OwnPrefixes(ws, id));
  }

  /** With a loaded assignee-grouped board nothing can be collected, and a cleanup with metadata passed in
      prunes the lists before it throws. */
  lemma GroupedBoardThrows(ws: string, id: string, key: Key, list: Cache, sort: Segment, board: string)
    requires ListPrefix(ws) <= key
    ensures var groups := MyPrefix(ws) + [Str("assignee-groups"), Str("assigned"), sort];
            var c: Store := map[key := Buckets(list), groups := Grouped(board)];
            && WellTyped(c, ws) && !Bucketed(c, ws)
            && forall d :: PrunedSome(c, d, ws, id) ==> key in d && d[key] == Buckets(RemoveIssue(list, id))
  {
    var groups := MyPrefix(ws) + [Str("assignee-groups"), Str("assigned"), sort];
    var c: Store := map[key := Buckets(list), groups := Grouped(board)];
    assert MyPrefix(ws) <= groups;
    hide ListPrefix, MyPrefix, RemoveIssue, PrunedSome, WellTyped, Bucketed;
    Apart(ws, key);
    ListAndBoard(c, ws, key, groups);
    forall d | PrunedSome(c, d, ws, id)
      ensures key in d && d[key] == Buckets(RemoveIssue(list, id))
    {
      ListsArePruned(c, d, ws, id, key);
    }
  }

  lemma ListAndBoard(c: Store, ws: string, key: Key, groups: Key)
    requires forall k :: k in c <==> k == key || k == groups
    requires ListPrefix(ws) <= key && MyPrefix(ws) <= groups && c[key].Buckets? && c[groups].Grouped?
    ensures WellTyped(c, ws) && !Bucketed(c, ws) && KeysUnder(c, ListPrefix(ws)) == {key}
  {
    hide ListPrefix, MyPrefix, ChildrenPrefix, DetailPrefix;
    Apart(ws, key);
    Apart(ws, groups);
  }

  lemma ListsArePruned(c: Store, d: Store, ws: string, id: string, key: Key)
    requires PrunedSome(c, d, ws, id) && key in KeysUnder(c, ListPrefix(ws))
    requires forall k :: k in KeysUnder(c, ListPrefix(ws)) ==> c[k].Buckets?
    ensures key in d && d[key] == Buckets(RemoveIssue(c[key].list, id))
  {
    hide ListPrefix, RemoveIssue;
  }

  function Cleaned(c: Store, ws: string, id: string, parents: set<string>): Store {
    RemovedAll(Pruned(c, ws, id, parents), OwnPrefixes(ws, id))
  }

  /** Collection finds every children cache that holds the issue. */
  lemma EveryHolderIsCollected(c: Store, ws: string, id: string, k: Key)
    requires WellTyped(c, ws) && k in c && ChildrenPrefix(ws) <= k && HoldsChild(c[k], id)
    ensures k in ChildrenKeys(ws, Parents(c, ws, id))
  {
    hide Find, OfLists;
    ChildrenKeyIs(ws, k);
    var p := k[3].s;
    assert k[|k| - 1] == Str(p) && p in OfChildrenEntry(k, c[k], id);
    assert k in KeysUnder(c, ChildrenPrefix(ws)) && p in OfChildren(c, ws, id);
  }

  /** No prefix of the issue's own reaches a list key: ids are not segment names. */
  lemma ListsAreNotOwn(ws: string, id: string, k: Key)
    requires id != "list" && id != "my" && (ListPrefix(ws) <= k || MyPrefix(ws) <= k)
    ensures forall i :: 0 <= i < |OwnPrefixes(ws, id)| ==> !(OwnPrefixes(ws, id)[i] <= k)
  {
    ThirdOfLists(ws, k);
    forall i | 0 <= i < |OwnPrefixes(ws, id)|
      ensures !(OwnPrefixes(ws, id)[i] <= k)
    {
      OwnThird(ws, id, i);
      NoPrefix(OwnPrefixes(ws, id)[i], k);
    }
  }

  lemma ThirdOfLists(ws: string, k: Key)
    requires ListPrefix(ws) <= k || MyPrefix(ws) <= k
    ensures |k| > 2 && k[0] == Str("issues") && k[2] in {Str("list"), Str("my")}
  {
    if ListPrefix(ws) <= k {
      assert k[0] == ListPrefix(ws)[0] && k[2] == ListPrefix(ws)[2];
    } else {
      assert k[0] == MyPrefix(ws)[0] && k[2] == MyPrefix(ws)[2];
    }
  }

  lemma NoPrefix(own: Key, k: Key)
    requires |own| > 2 && |k| > 2 && (own[0] != k[0] || own[2] != k[2])
    ensures !(own <= k)
  {
  }

  lemma OwnThird(ws: string, id: string, i: nat)
    requires i < |OwnPrefixes(ws, id)|
    ensures var own := OwnPrefixes(ws, id)[i];
            && |own| > 2
            && (own == ChildrenKey(ws, id) || own[0] == Str("labels") || own[2] in {Str("detail"), Str(id)})
    ensures ChildrenKey(ws, id)[2] == Str("children")
  {
  }

  /** Every list and my-issues cache is still there after cleanup; the deleted issue is gone from it and
      every other issue is as before. */
  lemma CleanedList(c: Store, ws: string, id: string, parents: set<string>, k: Key)
    requires id != "list" && id != "my"
    requires k in c && (ListPrefix(ws) <= k || MyPrefix(ws) <= k)
    requires c[k].Buckets? && Coherent(c[k].list)
    ensures k in Cleaned(c, ws, id, parents) && Cleaned(c, ws, id, parents)[k].Buckets?
    ensures var list := Cleaned(c, ws, id, parents)[k].list;
            Coherent(list) && Locate(list, id) == None && Abs(list) == Abs(c[k].list) - {id}
  {
    ListsAreNotOwn(ws, id, k);
    hide Coherent, Abs, Locate, RemoveIssue, OwnPrefixes;
    assert k in ListKeys(c, ws);
    RemoveRefines(c[k].list, id);
    var list := RemoveIssue(c[k].list, id);
    assert id !in Abs(list);
  }

  lemma {:induction false} WithoutMembers(issues: seq<Issue>, id: string)
    ensures forall i :: i in Without(issues, id) <==> i in issues && i.id != id
    ensures (forall i :: i in issues ==> i.id != id) ==> Without(issues, id) == issues
  {
    if issues != [] {
      WithoutMembers(issues[1..], id);
      assert issues == [issues[0]] + issues[1..];
    }
  }

  /** Of the issue's own prefixes only its own children key reaches a children cache. */
  lemma ChildrenAreNotOwn(c: Store, ws: string, id: string, k: Key)
    requires WellTyped(c, ws) && k in c && ChildrenPrefix(ws) <= k && id != "children" && k != ChildrenKey(ws, id)
    ensures forall i :: 0 <= i < |OwnPrefixes(ws, id)| ==> !(OwnPrefixes(ws, id)[i] <= k)
  {
    ChildrenKeyIs(ws, k);
    assert k[0] == ChildrenPrefix(ws)[0] && k[2] == ChildrenPrefix(ws)[2];
    assert |k| == 4 && k[0] == Str("issues") && k[2] == Str("children");
    hide WellTyped;
    forall i | 0 <= i < |OwnPrefixes(ws, id)|
      ensures !(OwnPrefixes(ws, id)[i] <= k)
    {
      OwnThird(ws, id, i);
      var own := OwnPrefixes(ws, id)[i];
      if own == ChildrenKey(ws, id) {
        SameLength(own, k);
      } else {
        NoPrefix(own, k);
      }
    }
  }

  lemma SameLength(own: Key, k: Key)
    requires |own| == |k| && own != k
    ensures !(own <= k)
  {
  }

  /** Every children cache but the issue's own is still there after cleanup and keeps its other issues in
      order. It holds the deleted issue if and only if it did before and its parent was not collected. */
  lemma CleanedChildrenIff(c: Store, ws: string, id: string, parents: set<string>, k: Key)
    requires WellTyped(c, ws) && k in c && ChildrenPrefix(ws) <= k && id != "children" && k != ChildrenKey(ws, id)
    ensures k in Cleaned(c, ws, id, parents) && Cleaned(c, ws, id, parents)[k].IssueList?
    ensures Without(Cleaned(c, ws, id, parents)[k].issues, id) == Without(c[k].issues, id)
    ensures HoldsChild(Cleaned(c, ws, id, parents)[k], id) <==>
            HoldsChild(c[k], id) && k !in ChildrenKeys(ws, parents)
  {
    hide OwnPrefixes, Without, Find, ChildrenKeys;
    ChildrenAreNotOwn(c, ws, id, k);
    Apart(ws, k);
    WithoutMembers(c[k].issues, id);
    WithoutMembers(Without(c[k].issues, id), id);
  }

  /** With freshly collected metadata no children cache holds the deleted issue, and each keeps exactly its
      other issues, in order. */
  lemma CleanedChildren(c: Store, ws: string, id: string, k: Key)
    requires WellTyped(c, ws) && k in c && ChildrenPrefix(ws) <= k && id != "children" && k != ChildrenKey(ws, id)
    ensures var d := Cleaned(c, ws, id, Parents(c, ws, id));
            k in d && d[k] == IssueList(Without(c[k].issues, id)) && !HoldsChild(d[k], id)
  {
    hide Without, Find, Parents, OwnPrefixes, ChildrenKeys;
    var d := Cleaned(c, ws, id, Parents(c, ws, id));
    CleanedChildrenIff(c, ws, id, Parents(c, ws, id), k);
    if HoldsChild(c[k], id) {
      EveryHolderIsCollected(c, ws, id, k);
    }
    WithoutMembers(d[k].issues, id);
  }

  /** Entries of other families are untouched unless they belong to the deleted issue. */
  lemma CleanedFrame(c: Store, ws: string, id: string, parents: set<string>, k: Key)
    requires k in c && !(ListPrefix(ws) <= k) && !(MyPrefix(ws) <= k) && !(ChildrenPrefix(ws) <= k)
    ensures if exists i :: 0 <= i < |OwnPrefixes(ws, id)| && OwnPrefixes(ws, id)[i] <= k
            then k !in Cleaned(c, ws, id, parents)
            else k in Cleaned(c, ws, id, parents) && Cleaned(c, ws, id, parents)[k] == c[k]
  {
    hide OwnPrefixes, Edited;
    ChildrenKeyIs(ws, k);
  }
}
