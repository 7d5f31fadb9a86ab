/** The status-bucketed issue list (packages/core/issues/cache-helpers.ts) as a map from ids to issues. */
module IssueBuckets {
  import opened Text

  datatype Status = Backlog | Todo | InProgress | InReview | Done | Blocked | Cancelled

  /** The statuses that lists and boards paginate; Cancelled is not one of them. */
  const PAGINATED: seq<Status> := [Backlog, Todo, InProgress, InReview, Done, Blocked]

  datatype Issue = Issue(id: string, status: Status, parentId: Option<string>, title: string, labels: seq<string>)

  /** `Partial<Issue>`: None means that the field is not in the patch. */
  datatype Patch = Patch(
    status: Option<Status>, parentId: Option<Option<string>>, title: Option<string>, labels: Option<seq<string>>)

  datatype Bucket = Bucket(issues: seq<Issue>, total: nat)

  type Cache = map<Status, Bucket>

  datatype Location = Location(status: Status, issue: Issue)

  function Or<T>(o: Option<T>, default: T): T {
    if o.Some? then o.value else default
  }

  /** `{ ...issue, ...patch }` */
  function Merge(issue: Issue, patch: Patch): Issue {
    Issue(issue.id, Or(patch.status, issue.status), Or(patch.parentId, issue.parentId),
          Or(patch.title, issue.title), Or(patch.labels, issue.labels))
  }

  // ---------------------------------------------------------------------------
  // The helpers
  // ---------------------------------------------------------------------------

  function GetBucket(c: Cache, s: Status): Bucket {
    if s in c then c[s] else Bucket([], 0)
  }

  function SetBucket(c: Cache, s: Status, b: Bucket): Cache {
    c[s := b]
  }

  /** `issues.find(i => i.id === id)` */
  function Find(issues: seq<Issue>, id: string): (r: Option<Issue>)
    ensures r.Some? ==> r.value in issues && r.value.id == id
    ensures r.None? <==> forall i :: i in issues ==> i.id != id
  {
    if issues == [] then None
    else if issues[0].id == id then Some(issues[0])
    else Find(issues[1..], id)
  }

  function LocateFrom(c: Cache, id: string, k: nat): (r: Option<Location>)
    requires k <= |PAGINATED|
    decreases |PAGINATED| - k
  {
    if k == |PAGINATED| then None
    else
      var found := Find(GetBucket(c, PAGINATED[k]).issues, id);
      if found.Some? then Some(Location(PAGINATED[k], found.value)) else LocateFrom(c, id, k + 1)
  }

  function Locate(c: Cache, id: string): Option<Location> {
    LocateFrom(c, id, 0)
  }

  method FindIssueLocation(c: Cache, id: string) returns (r: Option<Location>)
    ensures r == Locate(c, id)
  {
    for k := 0 to |PAGINATED|
      invariant Locate(c, id) == LocateFrom(c, id, k)
    {
      var status := PAGINATED[k];
      var found := if status in c then Find(c[status].issues, id) else None;
      if found.Some? {
        return Some(Location(status, found.value));
      }
    }
    return None;
  }

  function Without(issues: seq<Issue>, id: string): seq<Issue> {
    if issues == [] then []
    else (if issues[0].id == id then [] else [issues[0]]) + Without(issues[1..], id)
  }

  function Replacing(issues: seq<Issue>, id: string, merged: Issue): seq<Issue> {
    if issues == [] then []
    else [if issues[0].id == id then merged else issues[0]] + Replacing(issues[1..], id, merged)
  }

  function AddIssue(c: Cache, issue: Issue): Cache {
    var bucket := GetBucket(c, issue.status);
    if Find(bucket.issues, issue.id).Some? then c
    else SetBucket(c, issue.status, Bucket(bucket.issues + [issue], bucket.total + 1))
  }

  function Fewer(total: nat): nat {
    if total == 0 then 0 else total - 1
  }

  function RemoveIssue(c: Cache, id: string): Cache {
    match Locate(c, id)
    case None => c
    case Some(Location(status, _)) =>
      var bucket := GetBucket(c, status);
      SetBucket(c, status, Bucket(Without(bucket.issues, id), Fewer(bucket.total)))
  }

  function PatchIssue(c: Cache, id: string, patch: Patch): Cache {
    match Locate(c, id)
    case None => c
    case Some(Location(status, issue)) =>
      var merged := Merge(issue, patch);
      var nextStatus := Or(patch.status, status);
      if nextStatus == status then
        var bucket := GetBucket(c, status);
        SetBucket(c, status, bucket.(issues := Replacing(bucket.issues, id, merged)))
      else
        var from, to := GetBucket(c, status), GetBucket(c, nextStatus);
        var next := SetBucket(c, status, Bucket(Without(from.issues, id), Fewer(from.total)));
        SetBucket(next, nextStatus, Bucket(to.issues + [merged], to.total + 1))
  }

  function PatchAll(c: Cache, ids: seq<string>, patch: Patch): Cache
    decreases |ids|
  {
    if ids == [] then c else PatchAll(PatchIssue(c, ids[0], patch), ids[1..], patch)
  }

  // ---------------------------------------------------------------------------
  // Coherence and the abstract map
  // ---------------------------------------------------------------------------

  predicate Paginated(s: Status) {
    !s.Cancelled?
  }

  function At(c: Cache, s: Status): seq<Issue> {
    GetBucket(c, s).issues
  }

  predicate UniqueIds(issues: seq<Issue>) {
    forall i, j :: 0 <= i < j < |issues| ==> issues[i].id != issues[j].id
  }

  /** One bucket: ids unique, statuses right, and no more loaded than the server counts. */
  predicate Tidy(b: Bucket, s: Status) {
    && UniqueIds(b.issues)
    && (forall i :: i in b.issues ==> i.status == s)
    && |b.issues| <= b.total
  }

  /** No id is loaded in two paginated buckets. */
  ghost predicate Coherent(c: Cache) {
    && (forall s :: Paginated(s) ==> Tidy(GetBucket(c, s), s))
    && (forall s, t, i, j :: Paginated(s) && Paginated(t) && i in At(c, s) && j in At(c, t) && i.id == j.id ==> s == t)
  }

  /** Loaded but not yet fetched: what `hasMore` compares with zero. */
  function Unloaded(c: Cache, s: Status): int {
    GetBucket(c, s).total - |At(c, s)|
  }

  lemma PaginatedIsListed(s: Status)
    ensures Paginated(s) <==> s in PAGINATED
  {
    assert PAGINATED[0] == Backlog && PAGINATED[1] == Todo && PAGINATED[2] == InProgress;
    assert PAGINATED[3] == InReview && PAGINATED[4] == Done && PAGINATED[5] == Blocked;
  }

  lemma {:induction false} LocateFromMeans(c: Cache, id: string, k: nat)
    requires k <= |PAGINATED|
    ensures match LocateFrom(c, id, k)
            case None => forall n, i :: k <= n < |PAGINATED| && i in At(c, PAGINATED[n]) ==> i.id != id
            case Some(Location(s, i)) => s in PAGINATED && i in At(c, s) && i.id == id
    decreases |PAGINATED| - k
  {
    hide PAGINATED;
    if k < |PAGINATED| {
      LocateFromMeans(c, id, k + 1);
    }
  }

  lemma LocateMeans(c: Cache, id: string)
    ensures match Locate(c, id)
            case None => forall s, i :: Paginated(s) && i in At(c, s) ==> i.id != id
            case Some(Location(s, i)) => Paginated(s) && i in At(c, s) && i.id == id
  {
    LocateFromMeans(c, id, 0);
    forall s ensures Paginated(s) <==> s in PAGINATED { PaginatedIsListed(s); }
    hide PAGINATED;
    forall s, i | Locate(c, id) == None && Paginated(s) && i in At(c, s)
      ensures i.id != id
    {
      var n :| 0 <= n < |PAGINATED| && PAGINATED[n] == s;
    }
  }

  lemma SameIdSameIssue(issues: seq<Issue>, a: Issue, b: Issue)
    requires UniqueIds(issues) && a in issues && b in issues && a.id == b.id
    ensures a == b
  {
  }

  /** In a coherent cache the located issue is the only one with its id. */
  lemma LocateIff(c: Cache, id: string, s: Status, i: Issue)
    requires Coherent(c)
    ensures Locate(c, id) == Some(Location(s, i)) <==> Paginated(s) && i in At(c, s) && i.id == id
  {
    LocateMeans(c, id);
    if Paginated(s) && i in At(c, s) && i.id == id {
      var found := Locate(c, id).value;
      assert found.status == s;
      SameIdSameIssue(At(c, s), found.issue, i);
    }
  }

  /** What the list shows: from each loaded id to its issue. */
  ghost function Abs(c: Cache): (m: map<string, Issue>)
    ensures forall id :: id in m <==> Locate(c, id).Some?
    ensures forall id :: id in m ==> m[id] == Locate(c, id).value.issue
  {
    forall id | Locate(c, id).Some?
      ensures id in LoadedIds(c)
    {
      LocatedIsLoaded(c, id);
    }
    map id | id in LoadedIds(c) && Locate(c, id).Some? :: Locate(c, id).value.issue
  }

  /** packages/core/issues/queries.ts, flattenIssueBuckets */
  function Flatten(c: Cache, k: nat): seq<Issue>
    requires k <= |PAGINATED|
  {
    if k == 0 then [] else Flatten(c, k - 1) + At(c, PAGINATED[k - 1])
  }

  function LoadedIds(c: Cache): set<string> {
    set i | i in Flatten(c, |PAGINATED|) :: i.id
  }

  lemma {:induction false} FlattenMembers(c: Cache, k: nat, i: Issue)
    requires k <= |PAGINATED|
    ensures i in Flatten(c, k) <==> exists n :: 0 <= n < k && i in At(c, PAGINATED[n])
  {
    hide PAGINATED;
    if k > 0 {
      FlattenMembers(c, k - 1, i);
    }
  }

  lemma LocatedIsLoaded(c: Cache, id: string)
    requires Locate(c, id).Some?
    ensures id in LoadedIds(c)
  {
    LocateFromMeans(c, id, 0);
    hide PAGINATED;
    var Location(s, i) := Locate(c, id).value;
    var n :| 0 <= n < |PAGINATED| && PAGINATED[n] == s;
    FlattenMembers(c, |PAGINATED|, i);
  }

  /** The flattened list of a coherent cache holds exactly the issues that the plain map holds. */
  lemma FlattenShowsAbs(c: Cache, i: Issue)
    requires Coherent(c)
    ensures i in Flatten(c, |PAGINATED|) <==> i.id in Abs(c) && Abs(c)[i.id] == i
  {
    FlattenMembers(c, |PAGINATED|, i);
    forall s ensures Paginated(s) <==> s in PAGINATED { PaginatedIsListed(s); }
    hide PAGINATED, Flatten, Coherent, Locate;
    if n :| 0 <= n < |PAGINATED| && i in At(c, PAGINATED[n]) {
      LocateIff(c, i.id, PAGINATED[n], i);
    }
    if i.id in Abs(c) && Abs(c)[i.id] == i {
      var s := Locate(c, i.id).value.status;
      LocateIff(c, i.id, s, i);
      var n :| 0 <= n < |PAGINATED| && PAGINATED[n] == s;
    }
  }

  // ---------------------------------------------------------------------------
  // One bucket at a time
  // ---------------------------------------------------------------------------

  lemma {:induction false} WithoutTidies(issues: seq<Issue>, id: string)
    requires UniqueIds(issues)
    ensures UniqueIds(Without(issues, id))
    ensures forall i :: i in Without(issues, id) <==> i in issues && i.id != id
    ensures |Without(issues, id)| == |issues| - (if exists i :: i in issues && i.id == id then 1 else 0)
  {
    if issues != [] {
      var head, tail := issues[0], issues[1..];
      WithoutTidies(tail, id);
      assert issues == [head] + tail;
      assert forall i :: i in tail ==> i.id != head.id;
    }
  }

  lemma {:induction false} ReplacingTidies(issues: seq<Issue>, id: string, merged: Issue)
    requires UniqueIds(issues) && merged.id == id
    ensures UniqueIds(Replacing(issues, id, merged))
    ensures |Replacing(issues, id, merged)| == |issues|
    ensures forall i :: i in Replacing(issues, id, merged) <==>
                        if i.id == id then i == merged && exists j :: j in issues && j.id == id else i in issues
  {
    if issues != [] {
      var head, tail := issues[0], issues[1..];
      ReplacingTidies(tail, id, merged);
      assert issues == [head] + tail;
      assert forall i :: i in tail ==> i.id != head.id;
    }
  }

  lemma AppendTidies(issues: seq<Issue>, issue: Issue)
    requires UniqueIds(issues) && forall i :: i in issues ==> i.id != issue.id
    ensures UniqueIds(issues + [issue])
    ensures forall i :: i in issues + [issue] <==> i in issues || i == issue
  {
  }

  /** The issue i is visible under id. */
  ghost predicate Shows(c: Cache, id: string, i: Issue) {
    exists s :: Paginated(s) && i in At(c, s) && i.id == id
  }

  lemma AbsShows(c: Cache, id: string, i: Issue)
    requires Coherent(c)
    ensures id in Abs(c) && Abs(c)[id] == i <==> Shows(c, id, i)
  {
    if id in Abs(c) {
      LocateIff(c, id, Locate(c, id).value.status, Locate(c, id).value.issue);
    }
    if s :| Paginated(s) && i in At(c, s) && i.id == id {
      LocateIff(c, id, s, i);
    }
  }

  /** A coherent cache shows exactly the map m when it shows exactly m's entries. */
  lemma AbsIs(c: Cache, m: map<string, Issue>)
    requires Coherent(c)
    requires forall id, i :: Shows(c, id, i) <==> id in m && m[id] == i
    ensures Abs(c) == m
  {
    forall id
      ensures id in Abs(c) <==> id in m
      ensures id in m ==> Abs(c)[id] == m[id]
    {
      if id in m {
        assert Shows(c, id, m[id]);
        AbsShows(c, id, m[id]);
      }
      if id in Abs(c) {
        AbsShows(c, id, Abs(c)[id]);
      }
    }
  }

  // ---------------------------------------------------------------------------
  // Removing
  // ---------------------------------------------------------------------------

  /** What coherence says around one id. */
  lemma Around(c: Cache, id: string, s: Status)
    requires Coherent(c)
    ensures Paginated(s) ==> Tidy(GetBucket(c, s), s)
    ensures match Locate(c, id)
            case None => Paginated(s) ==> forall i :: i in At(c, s) ==> i.id != id
            case Some(Location(at, found)) =>
              && Paginated(at) && found in At(c, at) && found.id == id && found.status == at
              && |At(c, at)| > 0 && Tidy(GetBucket(c, at), at)
              && (Paginated(s) && s != at ==> forall i :: i in At(c, s) ==> i.id != id)
              && (forall i :: i in At(c, at) && i.id == id ==> i == found)
  {
    hide Locate;
    LocateMeans(c, id);
    if Locate(c, id).Some? {
      var Location(at, found) := Locate(c, id).value;
      forall i | i in At(c, at) && i.id == id
        ensures i == found
      {
        SameIdSameIssue(At(c, at), i, found);
      }
    }
  }

  /** The effect of a removal on one bucket. */
  lemma RemoveEffect(c: Cache, id: string, s: Status)
    requires Coherent(c)
    ensures var d := RemoveIssue(c, id);
      && (Paginated(s) ==> forall i :: i in At(d, s) <==> i in At(c, s) && i.id != id)
      && (Paginated(s) ==> Tidy(GetBucket(d, s), s))
      && Unloaded(d, s) == Unloaded(c, s)
  {
    hide Locate, Coherent, Without;
    Around(c, id, s);
    if Locate(c, id).Some? && s == Locate(c, id).value.status {
      WithoutTidies(At(c, s), id);
    }
  }

  lemma RemoveRefines(c: Cache, id: string)
    requires Coherent(c)
    ensures Coherent(RemoveIssue(c, id))
    ensures Abs(RemoveIssue(c, id)) == Abs(c) - {id}
  {
    hide RemoveIssue, Tidy, Locate;
    var d := RemoveIssue(c, id);
    forall s { RemoveEffect(c, id, s); }
    assert Coherent(d);
    forall id', i
      ensures Shows(d, id', i) <==> id' in Abs(c) - {id} && (Abs(c) - {id})[id'] == i
    {
      hide Coherent;
      AbsShows(c, id', i);
      assert Shows(d, id', i) <==> Shows(c, id', i) && id' != id;
    }
    AbsIs(d, Abs(c) - {id});
  }

  // ---------------------------------------------------------------------------
  // Adding
  // ---------------------------------------------------------------------------

  /** The issue is new to the paginated buckets, or already where it belongs. */
  ghost predicate Placeable(c: Cache, issue: Issue) {
    || !Paginated(issue.status)
    || Locate(c, issue.id).None?
    || Locate(c, issue.id).value.status == issue.status
  }

  /** The issue gets a place that the list shows. */
  ghost predicate Appears(c: Cache, issue: Issue) {
    Paginated(issue.status) && Locate(c, issue.id).None?
  }

  lemma AddEffect(c: Cache, issue: Issue, s: Status)
    requires Coherent(c) && Placeable(c, issue)
    ensures var d := AddIssue(c, issue);
      && (Paginated(s) ==> Tidy(GetBucket(d, s), s))
      && (Paginated(s) ==> forall i :: i in At(d, s) <==>
                             i in At(c, s) || (i == issue && s == issue.status && Appears(c, issue)))
      && Unloaded(d, s) == Unloaded(c, s)
  {
    hide Locate, Coherent, Find, Tidy, AddIssue, Unloaded;
    Around(c, issue.id, s);
    Around(c, issue.id, issue.status);
    if s == issue.status {
      AddHere(c, issue);
    } else {
      AddElsewhere(c, issue, s);
    }
  }

  lemma AddElsewhere(c: Cache, issue: Issue, s: Status)
    requires s != issue.status
    ensures GetBucket(AddIssue(c, issue), s) == GetBucket(c, s) && Unloaded(AddIssue(c, issue), s) == Unloaded(c, s)
  {
    hide Find;
  }

  lemma AddHere(c: Cache, issue: Issue)
    requires Paginated(issue.status) ==> Tidy(GetBucket(c, issue.status), issue.status)
    ensures var s, d := issue.status, AddIssue(c, issue);
      && (Paginated(s) ==> Tidy(GetBucket(d, s), s))
      && (forall i :: i in At(d, s) <==> i in At(c, s) || (i == issue && Find(At(c, s), issue.id).None?))
      && Unloaded(d, s) == Unloaded(c, s)
  {
    hide Find, UniqueIds;
    var b := GetBucket(c, issue.status);
    if Find(b.issues, issue.id).None? && Paginated(issue.status) {
      AppendTidies(b.issues, issue);
    }
  }

  lemma AddCoherent(c: Cache, issue: Issue)
    requires Coherent(c) && Placeable(c, issue)
    ensures Coherent(AddIssue(c, issue))
  {
    hide AddIssue, Tidy, Locate;
    var d := AddIssue(c, issue);
    forall s
      ensures Paginated(s) ==> Tidy(GetBucket(d, s), s)
      ensures Paginated(s) ==> forall i :: i in At(d, s) <==>
                                 i in At(c, s) || (i == issue && s == issue.status && Appears(c, issue))
      ensures Paginated(s) && Appears(c, issue) ==> forall i :: i in At(c, s) ==> i.id != issue.id
    {
      AddEffect(c, issue, s);
      Around(c, issue.id, s);
    }
  }

  lemma AddRefines(c: Cache, issue: Issue)
    requires Coherent(c) && Placeable(c, issue)
    ensures Coherent(AddIssue(c, issue))
    ensures Abs(AddIssue(c, issue))
         == if issue.id in Abs(c) || !Paginated(issue.status) then Abs(c) else Abs(c)[issue.id := issue]
  {
    hide AddIssue, Tidy, Locate, Coherent;
    var d := AddIssue(c, issue);
    var m := if issue.id in Abs(c) || !Paginated(issue.status) then Abs(c) else Abs(c)[issue.id := issue];
    AddCoherent(c, issue);
    forall s { AddEffect(c, issue, s); }
    forall id, i
      ensures Shows(d, id, i) <==> id in m && m[id] == i
    {
      AbsShows(c, id, i);
    }
    AbsIs(d, m);
  }

  /** Adding looks only at the issue's own bucket: it keeps the cache coherent if and only if the
      issue is not loaded under another status. */
  lemma AddCoherentIff(c: Cache, issue: Issue)
    requires Coherent(c)
    ensures Coherent(AddIssue(c, issue)) <==> Placeable(c, issue)
  {
    hide Locate;
    if Placeable(c, issue) {
      AddRefines(c, issue);
    } else {
      LocateMeans(c, issue.id);
      var Location(s, i) := Locate(c, issue.id).value;
      var d := AddIssue(c, issue);
      assert Find(At(c, issue.status), issue.id).None?;
      assert At(d, issue.status)[|At(c, issue.status)|] == issue;
      assert issue in At(d, issue.status) && i in At(d, s);
    }
  }

  /** A created event for an issue that the list still shows under another status shows it twice. */
  lemma StaleCopyAppearsTwice(i: Issue, s: Status)
    requires Paginated(i.status) && Paginated(s) && s != i.status
    ensures var c := map[i.status := Bucket([i], 1)];
            var d := AddIssue(c, i.(status := s));
            && Coherent(c) && !Coherent(d)
            && At(d, i.status) == [i] && At(d, s) == [i.(status := s)]
  {
    var c, moved := map[i.status := Bucket([i], 1)], i.(status := s);
    var d := c[s := Bucket([moved], 1)];
    assert [] + [moved] == [moved];
    assert AddIssue(c, moved) == d;
    hide AddIssue, Find;
    assert i in At(d, i.status) && moved in At(d, s);
  }

  // ---------------------------------------------------------------------------
  // Patching
  // ---------------------------------------------------------------------------

  function NextStatus(c: Cache, id: string, patch: Patch): Status
    requires Locate(c, id).Some?
  {
    Or(patch.status, Locate(c, id).value.status)
  }

  lemma PatchEffect(c: Cache, id: string, patch: Patch, s: Status)
    requires Coherent(c) && Locate(c, id).Some?
    ensures var d, merged := PatchIssue(c, id, patch), Merge(Locate(c, id).value.issue, patch);
      && (Paginated(s) ==> Tidy(GetBucket(d, s), s))
      && (Paginated(s) ==> forall i :: i in At(d, s) <==>
                             if i.id == id then i == merged && s == NextStatus(c, id, patch) else i in At(c, s))
      && Unloaded(d, s) == Unloaded(c, s)
  {
    hide Locate, Coherent, Without, Replacing;
    Around(c, id, s);
    var Location(at, found) := Locate(c, id).value;
    var merged, next := Merge(found, patch), NextStatus(c, id, patch);
    assert merged.id == id && merged.status == next;
    if s == at {
      WithoutTidies(At(c, at), id);
      ReplacingTidies(At(c, at), id, merged);
    } else if s == next && Paginated(s) {
      AppendTidies(At(c, s), merged);
    }
  }

  /** The same patch on the plain map; an issue that leaves the paginated statuses leaves the map. */
  function AbsPatch(m: map<string, Issue>, id: string, patch: Patch): map<string, Issue> {
    if id !in m then m
    else
      var merged := Merge(m[id], patch);
      if Paginated(merged.status) then m[id := merged] else m - {id}
  }

  lemma PatchRefines(c: Cache, id: string, patch: Patch)
    requires Coherent(c)
    ensures Coherent(PatchIssue(c, id, patch))
    ensures Abs(PatchIssue(c, id, patch)) == AbsPatch(Abs(c), id, patch)
  {
    if Locate(c, id).Some? {
      PatchLocatedRefines(c, id, patch);
    }
  }

  lemma PatchCoherent(c: Cache, id: string, patch: Patch)
    requires Coherent(c) && Locate(c, id).Some?
    ensures Coherent(PatchIssue(c, id, patch))
  {
    hide PatchIssue, Tidy, Locate, Merge;
    forall s { PatchEffect(c, id, patch, s); }
  }

  lemma PatchLocatedRefines(c: Cache, id: string, patch: Patch)
    requires Coherent(c) && Locate(c, id).Some?
    ensures Coherent(PatchIssue(c, id, patch))
    ensures Abs(PatchIssue(c, id, patch)) == AbsPatch(Abs(c), id, patch)
  {
    hide PatchIssue, Tidy, Locate, Merge, Coherent;
    var d, m, merged := PatchIssue(c, id, patch), AbsPatch(Abs(c), id, patch), Merge(Abs(c)[id], patch);
    PatchCoherent(c, id, patch);
    forall s { PatchEffect(c, id, patch, s); }
    MergedStatus(c, id, patch);
    forall id', i
      ensures Shows(d, id', i) <==> id' in m && m[id'] == i
    {
      AbsShows(c, id', i);
    }
    AbsIs(d, m);
  }

  lemma MergedStatus(c: Cache, id: string, patch: Patch)
    requires Coherent(c) && Locate(c, id).Some?
    ensures Merge(Locate(c, id).value.issue, patch).id == id
    ensures Merge(Locate(c, id).value.issue, patch).status == NextStatus(c, id, patch)
  {
    hide Locate;
    Around(c, id, Backlog);
  }
}
