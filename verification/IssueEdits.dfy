/** What the list operations do to the columns, position by position, and to an issue, field by field
    (packages/core/issues/cache-helpers.ts). */
module IssueEdits {
  import opened Text
  import opened IssueBuckets
  import opened IssueRuns

  /** The issue has the patch's value in each field that the patch names, and is unchanged in all others. */
  predicate Takes(before: Issue, patch: Patch, after: Issue) {
    && after.id == before.id
    && after.status == (if patch.status.Some? then patch.status.value else before.status)
    && after.parentId == (if patch.parentId.Some? then patch.parentId.value else before.parentId)
    && after.title == (if patch.title.Some? then patch.title.value else before.title)
    && after.labels == (if patch.labels.Some? then patch.labels.value else before.labels)
  }

  lemma MergeTakes(issue: Issue, patch: Patch)
    ensures Takes(issue, patch, Merge(issue, patch))
  {
  }

  function BucketOf(c: Cache, s: Status): Bucket {
    if s in c then c[s] else Bucket([], 0)
  }

  /** The issue stands at position n of a column that the list shows. */
  predicate Stands(c: Cache, id: string, s: Status, n: nat) {
    !s.Cancelled? && s in c && n < |c[s].issues| && c[s].issues[n].id == id
  }

  /** The column without its n-th issue, counting one less. */
  function Shrunk(b: Bucket, n: nat): Bucket
    requires n < |b.issues| && b.total > 0
  {
    Bucket(b.issues[..n] + b.issues[n + 1..], b.total - 1)
  }

  // ---------------------------------------------------------------------------
  // Positions
  // ---------------------------------------------------------------------------

  /** A new issue goes to the end of its own column, which counts one more; a known one changes nothing. */
  lemma AddLands(c: Cache, issue: Issue)
    ensures var b := BucketOf(c, issue.status);
            var known := exists n :: 0 <= n < |b.issues| && b.issues[n].id == issue.id;
            AddIssue(c, issue) == if known then c else c[issue.status := Bucket(b.issues + [issue], b.total + 1)]
  {
  }

  lemma {:induction false} WithoutAbsent(issues: seq<Issue>, id: string)
    requires forall i :: i in issues ==> i.id != id
    ensures Without(issues, id) == issues
  {
    if issues != [] {
      WithoutAbsent(issues[1..], id);
    }
  }

  lemma {:induction false} WithoutAt(issues: seq<Issue>, id: string, n: nat)
    requires UniqueIds(issues) && n < |issues| && issues[n].id == id
    ensures Without(issues, id) == issues[..n] + issues[n + 1..]
  {
    assert issues == [issues[0]] + issues[1..];
    if n == 0 {
      WithoutAbsent(issues[1..], id);
    } else {
      WithoutAt(issues[1..], id, n - 1);
      assert issues[..n] == [issues[0]] + issues[1..][..n - 1];
      assert issues[1..][n..] == issues[n + 1..];
    }
  }

  lemma {:induction false} ReplacingAt(issues: seq<Issue>, id: string, merged: Issue, n: nat)
    requires UniqueIds(issues) && n < |issues| && issues[n].id == id
    ensures Replacing(issues, id, merged) == issues[n := merged]
  {
    assert issues == [issues[0]] + issues[1..];
    if n == 0 {
      ReplacingAbsent(issues[1..], id, merged);
    } else {
      ReplacingAt(issues[1..], id, merged, n - 1);
      assert issues[n := merged] == [issues[0]] + issues[1..][n - 1 := merged];
    }
  }

  lemma {:induction false} ReplacingAbsent(issues: seq<Issue>, id: string, merged: Issue)
    requires forall i :: i in issues ==> i.id != id
    ensures Replacing(issues, id, merged) == issues
  {
    if issues != [] {
      ReplacingAbsent(issues[1..], id, merged);
    }
  }

  /** Where a located issue stands. */
  lemma LocatedStands(c: Cache, id: string) returns (s: Status, n: nat)
    requires Coherent(c) && Locate(c, id).Some?
    ensures Stands(c, id, s, n) && Locate(c, id) == Some(Location(s, c[s].issues[n]))
    ensures UniqueIds(c[s].issues) && c[s].total > 0
  {
    hide Locate;
    Around(c, id, Backlog);
    var at := Locate(c, id).value;
    s := at.status;
    n :| 0 <= n < |At(c, s)| && At(c, s)[n] == at.issue;
  }

  lemma NotLocated(c: Cache, id: string)
    ensures Locate(c, id).None? <==> forall s, n: nat :: !Stands(c, id, s, n)
  {
    LocateMeans(c, id);
    hide Locate;
    if Locate(c, id).Some? {
      var Location(s, i) := Locate(c, id).value;
      var n :| 0 <= n < |At(c, s)| && At(c, s)[n] == i;
      assert Stands(c, id, s, n);
    }
    forall s, n: nat | Stands(c, id, s, n)
      ensures Locate(c, id).Some?
    {
      assert c[s].issues[n] in At(c, s);
    }
  }

  /** Removal takes the one copy out, closes the gap, and touches no other column. */
  lemma RemoveLands(c: Cache, id: string)
    requires Coherent(c)
    ensures (forall s, n: nat :: !Stands(c, id, s, n)) ==> RemoveIssue(c, id) == c
    ensures forall s, n: nat :: Stands(c, id, s, n) ==>
              c[s].total > 0 && RemoveIssue(c, id) == c[s := Shrunk(c[s], n)]
  {
    NotLocated(c, id);
    forall s, n: nat | Stands(c, id, s, n)
      ensures c[s].total > 0 && RemoveIssue(c, id) == c[s := Shrunk(c[s], n)]
    {
      StandsOnce(c, id, s, n);
      hide Locate, Coherent;
      WithoutAt(c[s].issues, id, n);
    }
  }

  lemma StandsOnce(c: Cache, id: string, s: Status, n: nat)
    requires Coherent(c) && Stands(c, id, s, n)
    ensures Locate(c, id) == Some(Location(s, c[s].issues[n])) && UniqueIds(c[s].issues) && c[s].total > 0
    ensures At(c, s) == c[s].issues
  {
    assert c[s].issues[n] in At(c, s);
    LocateIff(c, id, s, c[s].issues[n]);
    assert Tidy(GetBucket(c, s), s);
  }

  /** In any cache, coherent or not, a column that loses an issue counts one less, and never less than none. */
  lemma TotalsStayNatural(c: Cache, id: string, patch: Patch)
    requires Locate(c, id).Some?
    ensures var s := Locate(c, id).value.status;
            var next := if patch.status.Some? then patch.status.value else s;
            var left := if BucketOf(c, s).total == 0 then 0 else BucketOf(c, s).total - 1;
            && BucketOf(RemoveIssue(c, id), s).total == left
            && (next != s ==> BucketOf(PatchIssue(c, id, patch), s).total == left)
            && (next != s ==> BucketOf(PatchIssue(c, id, patch), next).total == BucketOf(c, next).total + 1)
            && (next == s ==> BucketOf(PatchIssue(c, id, patch), s).total == BucketOf(c, s).total)
  {
    hide Locate;
  }

  /** What a patch makes of a column's issue: replaced in place, or moved to the end of the column it names. */
  ghost predicate Patched(c: Cache, patch: Patch, s: Status, n: nat, d: Cache)
    requires s in c && n < |c[s].issues| && c[s].total > 0
  {
    exists after :: Takes(c[s].issues[n], patch, after) &&
      if after.status == s then
        d == c[s := Bucket(c[s].issues[n := after], c[s].total)]
      else
        var to := BucketOf(c, after.status);
        d == c[s := Shrunk(c[s], n)][after.status := Bucket(to.issues + [after], to.total + 1)]
  }

  /** A patch changes the one copy, field by field: in its place when the status stays, and else from there to the
      end of the other column; no other issue and no other column changes. */
  lemma PatchLands(c: Cache, id: string, patch: Patch)
    requires Coherent(c)
    ensures (forall s, n: nat :: !Stands(c, id, s, n)) ==> PatchIssue(c, id, patch) == c
    ensures forall s, n: nat :: Stands(c, id, s, n) ==>
              c[s].total > 0 && Patched(c, patch, s, n, PatchIssue(c, id, patch))
  {
    NotLocated(c, id);
    forall s, n: nat | Stands(c, id, s, n)
      ensures c[s].total > 0 && Patched(c, patch, s, n, PatchIssue(c, id, patch))
    {
      StandsOnce(c, id, s, n);
      assert c[s].issues[n].status == s;
      hide Locate, Coherent;
      PatchedAt(c, id, patch, s, n);
    }
  }

  lemma PatchedAt(c: Cache, id: string, patch: Patch, s: Status, n: nat)
    requires Stands(c, id, s, n) && Locate(c, id) == Some(Location(s, c[s].issues[n]))
    requires UniqueIds(c[s].issues) && c[s].total > 0 && c[s].issues[n].status == s
    ensures Patched(c, patch, s, n, PatchIssue(c, id, patch))
  {
    hide Locate, UniqueIds;
    var after := Merge(c[s].issues[n], patch);
    MergeTakes(c[s].issues[n], patch);
    WithoutAt(c[s].issues, id, n);
    ReplacingAt(c[s].issues, id, after, n);
    hide Without, Replacing, Takes;
    assert Or(patch.status, s) == after.status;
  }

  // ---------------------------------------------------------------------------
  // Fields, on the plain map
  // ---------------------------------------------------------------------------

  /** Each patched issue takes the patch, or is gone once the patch cancels it; no other issue changes. */
  ghost predicate ShownAfter(before: map<string, Issue>, after: map<string, Issue>, ids: set<string>, patch: Patch) {
    forall id ::
      if id in before && id in ids then
        if patch.status == Some(Cancelled) then id !in after else id in after && Takes(before[id], patch, after[id])
      else
        (id in after <==> id in before) && (id in before ==> after[id] == before[id])
  }

  lemma ShownPaginated(c: Cache, id: string)
    requires Coherent(c) && id in Abs(c)
    ensures Abs(c)[id].id == id && !Abs(c)[id].status.Cancelled?
  {
    hide Locate;
    Around(c, id, Backlog);
  }

  lemma PatchedFields(c: Cache, id: string, patch: Patch)
    requires Coherent(c)
    ensures Coherent(PatchIssue(c, id, patch))
    ensures ShownAfter(Abs(c), Abs(PatchIssue(c, id, patch)), {id}, patch)
  {
    hide Coherent, PatchIssue, Abs, AbsPatch, ShownAfter;
    PatchRefines(c, id, patch);
    if id in Abs(c) {
      ShownPaginated(c, id);
    }
    AbsPatchFields(Abs(c), id, patch);
  }

  lemma AbsPatchFields(m: map<string, Issue>, id: string, patch: Patch)
    requires id in m ==> !m[id].status.Cancelled?
    ensures ShownAfter(m, AbsPatch(m, id, patch), {id}, patch)
  {
    hide Merge;
    if id in m {
      MergeTakes(m[id], patch);
    }
  }

  lemma ShownAfterThen(m1: map<string, Issue>, m2: map<string, Issue>, m3: map<string, Issue>,
      a: set<string>, b: set<string>, patch: Patch)
    requires ShownAfter(m1, m2, a, patch) && ShownAfter(m2, m3, b, patch)
    ensures ShownAfter(m1, m3, a + b, patch)
  {
  }

  lemma {:induction false} PatchedAllFields(c: Cache, ids: seq<string>, patch: Patch)
    requires Coherent(c)
    ensures Coherent(PatchAll(c, ids, patch))
    ensures ShownAfter(Abs(c), Abs(PatchAll(c, ids, patch)), (set id | id in ids), patch)
    decreases |ids|
  {
    hide Coherent, PatchIssue, Abs, Takes;
    if ids != [] {
      var d := PatchIssue(c, ids[0], patch);
      PatchedFields(c, ids[0], patch);
      PatchedAllFields(d, ids[1..], patch);
      var rest := set id | id in ids[1..];
      ShownAfterThen(Abs(c), Abs(d), Abs(PatchAll(c, ids, patch)), {ids[0]}, rest, patch) by {
        assert PatchAll(c, ids, patch) == PatchAll(d, ids[1..], patch);
      }
      assert (set id | id in ids) == {ids[0]} + rest;
    }
  }
}
