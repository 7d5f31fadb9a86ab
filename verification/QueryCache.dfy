/** The query cache: structured keys, prefix lookup, writes and removals, and the issue keys
    (packages/core/issues/queries.ts). */
module QueryCache {
  import opened Text
  import opened IssueBuckets

  /** A key segment: a string, or an object compared by its content. */
  datatype Segment = Str(s: string) | Obj(repr: string)

  type Key = seq<Segment>

  datatype Data =
    | Buckets(list: Cache)
    | Grouped(repr: string)
    | IssueList(issues: seq<Issue>)
    | Detail(issue: Issue)
    | LabelList(labels: seq<string>)
    | Other(repr: string)

  type Store = map<Key, Data>

  function AllKey(ws: string): Key { [Str("issues"), Str(ws)] }
  function ListPrefix(ws: string): Key { AllKey(ws) + [Str("list")] }
  function MyPrefix(ws: string): Key { AllKey(ws) + [Str("my")] }
  function ChildrenPrefix(ws: string): Key { AllKey(ws) + [Str("children")] }
  function ChildrenKey(ws: string, parent: string): Key { ChildrenPrefix(ws) + [Str(parent)] }
  function DetailPrefix(ws: string): Key { AllKey(ws) + [Str("detail")] }
  function DetailKey(ws: string, id: string): Key { DetailPrefix(ws) + [Str(id)] }
  function ScopedKey(topic: string, id: string): Key { [Str("issues"), Str(topic), Str(id)] }
  function GanttPrefix(ws: string): Key { AllKey(ws) + [Str("project-gantt")] }
  function LabelsKey(ws: string, id: string): Key { [Str("labels"), Str(ws), Str("issue"), Str(id)] }

  function KeysUnder(c: Store, prefix: Key): set<Key> {
    set k | k in c && prefix <= k
  }

  /** The entries under a prefix, in the cache's order, which is not specified here. */
  ghost predicate Snapshot(entries: seq<(Key, Data)>, c: Store, prefix: Key) {
    && (forall i :: 0 <= i < |entries| ==>
        prefix <= entries[i].0 && entries[i].0 in c && c[entries[i].0] == entries[i].1)
    && KeysOf(entries) == KeysUnder(c, prefix)
  }

  function KeysOf(entries: seq<(Key, Data)>): set<Key> {
    set i | 0 <= i < |entries| :: entries[i].0
  }

  lemma KeysOfSnoc(entries: seq<(Key, Data)>, e: (Key, Data))
    ensures KeysOf(entries + [e]) == KeysOf(entries) + {e.0}
  {
    var more := entries + [e];
    assert forall i :: 0 <= i < |entries| ==> more[i] == entries[i];
    assert more[|entries|] == e;
  }

  class QueryClient {
    var cache: Store

    constructor ()
      ensures cache == map[]
    {
      cache := map[];
    }

    method GetQueriesData(prefix: Key) returns (entries: seq<(Key, Data)>)
      ensures Snapshot(entries, cache, prefix)
    {
      entries := [];
      var rest := KeysUnder(cache, prefix);
      while rest != {}
        invariant rest <= KeysUnder(cache, prefix)
        invariant KeysOf(entries) == KeysUnder(cache, prefix) - rest
        invariant forall i :: 0 <= i < |entries| ==>
                    prefix <= entries[i].0 && entries[i].0 in cache && cache[entries[i].0] == entries[i].1
        decreases |rest|
      {
        var k :| k in rest;
        KeysOfSnoc(entries, (k, cache[k]));
        entries := entries + [(k, cache[k])];
        rest := rest - {k};
      }
    }

    function GetQueryData(key: Key): Option<Data>
      reads this
    {
      if key in cache then Some(cache[key]) else None
    }

    /** Writing `undefined` changes nothing. */
    method SetQueryData(key: Key, data: Option<Data>)
      modifies this
      ensures cache == if data.Some? then old(cache)[key := data.value] else old(cache)
    {
      if data.Some? {
        cache := cache[key := data.value];
      }
    }

    /** Removal is by prefix. */
    method RemoveQueries(prefix: Key)
      modifies this
      ensures cache == Removed(old(cache), prefix)
    {
      cache := Removed(cache, prefix);
    }
  }

  function Removed(c: Store, prefix: Key): Store {
    map k | k in c && !(prefix <= k) :: c[k]
  }

  // ---------------------------------------------------------------------------
  // Optimistic edits of entries
  // ---------------------------------------------------------------------------

  datatype Edit =
    | Insert(issue: Issue)
    | Prune(id: string)
    | Change(id: string, patch: Patch)
    | ChangeAll(ids: seq<string>, patch: Patch)

  function MergeWhere(issues: seq<Issue>, ids: set<string>, patch: Patch): seq<Issue> {
    if issues == [] then []
    else [if issues[0].id in ids then Merge(issues[0], patch) else issues[0]] + MergeWhere(issues[1..], ids, patch)
  }

  function IdSet(ids: seq<string>): set<string> {
    set id | id in ids
  }

  /** What an edit makes of the shapes that the mutation hooks and event handlers edit. */
  function Edited(e: Edit, d: Data): Data {
    match (e, d)
    case (Insert(issue), Buckets(list)) => Buckets(AddIssue(list, issue))
    case (Prune(id), Buckets(list)) => Buckets(RemoveIssue(list, id))
    case (Prune(id), IssueList(issues)) => IssueList(Without(issues, id))
    case (Change(id, patch), Buckets(list)) => Buckets(PatchIssue(list, id, patch))
    case (Change(id, patch), IssueList(issues)) => IssueList(MergeWhere(issues, {id}, patch))
    case (Change(id, patch), Detail(issue)) => Detail(Merge(issue, patch))
    case (Change(id, patch), LabelList(labels)) => LabelList(Or(patch.labels, labels))
    case (ChangeAll(ids, patch), Buckets(list)) => Buckets(PatchAll(list, ids, patch))
    case (ChangeAll(ids, patch), IssueList(issues)) => IssueList(MergeWhere(issues, IdSet(ids), patch))
    case _ => d
  }

  function EditKeys(c: Store, keys: set<Key>, e: Edit): Store {
    map k | k in c :: if k in keys then Edited(e, c[k]) else c[k]
  }

  /** `for (const [key, data] of entries) qc.setQueryData(key, edit(data))` */
  method EditEntries(qc: QueryClient, entries: seq<(Key, Data)>, e: Edit)
    requires forall i :: 0 <= i < |entries| ==> entries[i].0 in qc.cache && qc.cache[entries[i].0] == entries[i].1
    modifies qc
    ensures qc.cache == EditKeys(old(qc.cache), KeysOf(entries), e)
  {
    hide Edited;
    for i := 0 to |entries|
      invariant qc.cache == EditKeys(old(qc.cache), KeysOf(entries[..i]), e)
    {
      var (key, data) := entries[i];
      assert entries[..i + 1] == entries[..i] + [entries[i]];
      KeysOfSnoc(entries[..i], entries[i]);
      qc.SetQueryData(key, Some(Edited(e, data)));
    }
    assert entries[..|entries|] == entries;
  }

  method EditOne(qc: QueryClient, key: Key, e: Edit)
    modifies qc
    ensures qc.cache == EditKeys(old(qc.cache), {key}, e)
  {
    var old_ := qc.GetQueryData(key);
    qc.SetQueryData(key, if old_.Some? then Some(Edited(e, old_.value)) else None);
  }

  // ---------------------------------------------------------------------------
  // Rolling back
  // ---------------------------------------------------------------------------

  /** `for (const [key, snapshot] of snaps) qc.setQueryData(key, snapshot)` */
  function Restore(c: Store, snaps: seq<(Key, Data)>): Store {
    if snaps == [] then c
    else
      var (key, data) := snaps[|snaps| - 1];
      Restore(c, snaps[..|snaps| - 1])[key := data]
  }

  method RestoreEntries(qc: QueryClient, snaps: seq<(Key, Data)>)
    modifies qc
    ensures qc.cache == Restore(old(qc.cache), snaps)
  {
    for i := 0 to |snaps|
      invariant qc.cache == Restore(old(qc.cache), snaps[..i])
    {
      assert snaps[..i + 1][..i] == snaps[..i];
      qc.SetQueryData(snaps[i].0, Some(snaps[i].1));
    }
    assert snaps[..|snaps|] == snaps;
  }

  lemma {:induction false} RestoreAppend(c: Store, a: seq<(Key, Data)>, b: seq<(Key, Data)>)
    ensures Restore(c, a + b) == Restore(Restore(c, a), b)
  {
    if b == [] {
      assert a + b == a;
    } else {
      assert (a + b)[..|a + b| - 1] == a + b[..|b| - 1];
      RestoreAppend(c, a, b[..|b| - 1]);
    }
  }

  /** The snapshots were taken from `c`. */
  ghost predicate TakenFrom(snaps: seq<(Key, Data)>, c: Store) {
    forall i :: 0 <= i < |snaps| ==> snaps[i].0 in c && c[snaps[i].0] == snaps[i].1
  }

  ghost predicate Covers(snaps: seq<(Key, Data)>, k: Key) {
    k in KeysOf(snaps)
  }

  lemma {:induction false} RestoreAt(c: Store, d: Store, snaps: seq<(Key, Data)>, k: Key)
    requires TakenFrom(snaps, c)
    ensures k in Restore(d, snaps) <==> k in d || Covers(snaps, k)
    ensures Covers(snaps, k) ==> k in c && Restore(d, snaps)[k] == c[k]
    ensures k in d && !Covers(snaps, k) ==> Restore(d, snaps)[k] == d[k]
  {
    if snaps != [] {
      var front := snaps[..|snaps| - 1];
      RestoreAt(c, d, front, k);
      assert snaps == front + [snaps[|snaps| - 1]];
      KeysOfSnoc(front, snaps[|snaps| - 1]);
    }
  }

  /** Restoring is exact if and only if the edited store differs from the original only at
      snapshotted keys. */
  lemma RestoreIsExactIff(c: Store, d: Store, snaps: seq<(Key, Data)>)
    requires TakenFrom(snaps, c)
    ensures Restore(d, snaps) == c <==>
            (forall k :: k in c && !Covers(snaps, k) ==> k in d && d[k] == c[k]) && (forall k :: k in d ==> k in c)
  {
    hide Restore, Covers, TakenFrom;
    forall k
      ensures k in Restore(d, snaps) <==> k in d || Covers(snaps, k)
      ensures Covers(snaps, k) ==> k in c && Restore(d, snaps)[k] == c[k]
      ensures k in d && !Covers(snaps, k) ==> Restore(d, snaps)[k] == d[k]
    {
      RestoreAt(c, d, snaps, k);
    }
  }
}
