/** Runs of list operations: the bucketed cache stays an index of a plain map
    (packages/core/issues/cache-helpers.ts, and its callers in mutations.ts and ws-updaters.ts). */
module IssueRuns {
  import opened IssueBuckets
  import IssuePaging

  datatype Op =
    | Add(issue: Issue)
    | Remove(id: string)
    | Change(id: string, patch: Patch)
    | ChangeAll(ids: seq<string>, patch: Patch)
    | Load(status: Status, page: seq<Issue>, total: nat)

  function Apply(c: Cache, op: Op): Cache {
    match op
    case Add(issue) => AddIssue(c, issue)
    case Remove(id) => RemoveIssue(c, id)
    case Change(id, patch) => PatchIssue(c, id, patch)
    case ChangeAll(ids, patch) => PatchAll(c, ids, patch)
    case Load(status, page, total) => IssuePaging.LoadMore(c, status, page, total)
  }

  function ApplyAll(c: Cache, ops: seq<Op>): Cache
    decreases |ops|
  {
    if ops == [] then c else ApplyAll(Apply(c, ops[0]), ops[1..])
  }

  // The same operations on a map from ids to issues.

  function AbsPatchAll(m: map<string, Issue>, ids: seq<string>, patch: Patch): map<string, Issue>
    decreases |ids|
  {
    if ids == [] then m else AbsPatchAll(AbsPatch(m, ids[0], patch), ids[1..], patch)
  }

  function AbsApply(m: map<string, Issue>, op: Op): map<string, Issue> {
    match op
    case Add(issue) => if issue.id in m || !Paginated(issue.status) then m else m[issue.id := issue]
    case Remove(id) => m - {id}
    case Change(id, patch) => AbsPatch(m, id, patch)
    case ChangeAll(ids, patch) => AbsPatchAll(m, ids, patch)
    case Load(_, page, _) => IssuePaging.AbsLoad(m, page)
  }

  function AbsApplyAll(m: map<string, Issue>, ops: seq<Op>): map<string, Issue>
    decreases |ops|
  {
    if ops == [] then m else AbsApplyAll(AbsApply(m, ops[0]), ops[1..])
  }

  /** An added issue, or one of a loaded page, must not be shown under another status: the one thing that the
      helpers do not check. A page answers for its status, and its total covers what is then shown. */
  ghost predicate Admissible(c: Cache, op: Op) {
    match op
    case Add(issue) =>
      issue.id in Abs(c) && Paginated(issue.status) ==> Abs(c)[issue.id].status == issue.status
    case Load(status, page, total) =>
      && Paginated(status) && IssuePaging.PageOf(page, status) && IssuePaging.NotElsewhere(c, status, page)
      && |At(Apply(c, op), status)| <= total
    case _ => true
  }

  ghost predicate AllAdmissible(c: Cache, ops: seq<Op>)
    decreases |ops|
  {
    ops != [] ==> Admissible(c, ops[0]) && AllAdmissible(Apply(c, ops[0]), ops[1..])
  }

  predicate Loads(ops: seq<Op>, s: Status) {
    exists i :: 0 <= i < |ops| && ops[i].Load? && ops[i].status == s
  }

  lemma UnloadedKept(c: Cache, op: Op, s: Status)
    requires Coherent(c) && !op.ChangeAll? && !op.Load?
    requires op.Add? ==> Placeable(c, op.issue)
    ensures Unloaded(Apply(c, op), s) == Unloaded(c, s)
  {
    hide Coherent, Locate, AddIssue, RemoveIssue;
    match op
    case Add(issue) => AddEffect(c, issue, s);
    case Remove(id) => RemoveEffect(c, id, s);
    case Change(id, patch) =>
      if Locate(c, id).Some? {
        hide PatchIssue;
        PatchEffect(c, id, patch, s);
      }
  }

  lemma {:induction false} PatchAllRefines(c: Cache, ids: seq<string>, patch: Patch)
    requires Coherent(c)
    ensures Coherent(PatchAll(c, ids, patch))
    ensures Abs(PatchAll(c, ids, patch)) == AbsPatchAll(Abs(c), ids, patch)
    ensures forall s :: Unloaded(PatchAll(c, ids, patch), s) == Unloaded(c, s)
    decreases |ids|
  {
    hide Coherent, PatchIssue, AbsPatch, Abs;
    if ids != [] {
      PatchRefines(c, ids[0], patch);
      forall s ensures Unloaded(PatchIssue(c, ids[0], patch), s) == Unloaded(c, s) {
        UnloadedKept(c, Change(ids[0], patch), s);
      }
      PatchAllRefines(PatchIssue(c, ids[0], patch), ids[1..], patch);
    }
  }

  lemma ApplyRefines(c: Cache, op: Op)
    requires Coherent(c) && Admissible(c, op)
    ensures Coherent(Apply(c, op))
    ensures Abs(Apply(c, op)) == AbsApply(Abs(c), op)
    ensures forall s :: !(op.Load? && op.status == s) ==> Unloaded(Apply(c, op), s) == Unloaded(c, s)
  {
    hide Coherent, Locate, AddIssue, RemoveIssue, PatchIssue, AbsPatch;
    if op.Load? {
      IssuePaging.LoadMoreRefines(c, op.status, op.page, op.total);
      return;
    }
    if op.ChangeAll? {
      PatchAllRefines(c, op.ids, op.patch);
      return;
    }
    match op {
      case Add(issue) =>
        Around(c, issue.id, issue.status);
        AddRefines(c, issue);
      case Remove(id) => RemoveRefines(c, id);
      case Change(id, patch) => PatchRefines(c, id, patch);
      case _ =>
    }
    forall s ensures Unloaded(Apply(c, op), s) == Unloaded(c, s) {
      UnloadedKept(c, op, s);
    }
  }

  /** Over every run: ids stay unique across buckets, statuses match buckets, what is shown is the
      plain map, and only load-more changes how many issues a column still has to load. */
  lemma {:induction false} RunRefines(c: Cache, ops: seq<Op>)
    requires Coherent(c) && AllAdmissible(c, ops)
    ensures Coherent(ApplyAll(c, ops))
    ensures Abs(ApplyAll(c, ops)) == AbsApplyAll(Abs(c), ops)
    ensures forall s :: !Loads(ops, s) ==> Unloaded(ApplyAll(c, ops), s) == Unloaded(c, s)
    decreases |ops|
  {
    hide Coherent, Abs, Apply, AbsApply, Admissible, Unloaded;
    if ops != [] {
      ApplyRefines(c, ops[0]);
      RunRefines(Apply(c, ops[0]), ops[1..]);
      forall s | !Loads(ops, s)
        ensures !Loads(ops[1..], s) && !(ops[0].Load? && ops[0].status == s)
      {
        NoLoads(ops, s);
      }
    }
  }

  lemma NoLoads(ops: seq<Op>, s: Status)
    requires ops != []
    ensures Loads(ops, s) <==> (ops[0].Load? && ops[0].status == s) || Loads(ops[1..], s)
  {
    if Loads(ops[1..], s) {
      var i :| 0 <= i < |ops[1..]| && ops[1..][i].Load? && ops[1..][i].status == s;
      assert ops[i + 1] == ops[1..][i];
    }
    if i :| 0 <= i < |ops| && ops[i].Load? && ops[i].status == s {
      assert i > 0 ==> ops[1..][i - 1] == ops[i];
    }
  }

  // ---------------------------------------------------------------------------
  // Totals
  // ---------------------------------------------------------------------------

  function Total(c: Cache, s: Status): nat {
    GetBucket(c, s).total
  }

  function AllTotals(c: Cache): nat {
    Total(c, Backlog) + Total(c, Todo) + Total(c, InProgress) + Total(c, InReview) + Total(c, Done)
    + Total(c, Blocked) + Total(c, Cancelled)
  }

  /** A status move takes one from the old column's total and gives it to the new one's. */
  lemma PatchConservesTotals(c: Cache, id: string, patch: Patch)
    requires Coherent(c)
    ensures AllTotals(PatchIssue(c, id, patch)) == AllTotals(c)
  {
    hide Coherent, Locate, Without, Replacing, Merge;
    Around(c, id, Backlog);
    if Locate(c, id).Some? {
      var at, next := Locate(c, id).value.status, NextStatus(c, id, patch);
      var d := PatchIssue(c, id, patch);
      forall s
        ensures Total(d, s) == Total(c, s) - (if s == at then 1 else 0) + (if s == next then 1 else 0)
      {
      }
    }
  }

  // ---------------------------------------------------------------------------
  // Every operation absorbs its own echo
  // ---------------------------------------------------------------------------

  lemma AddTwice(c: Cache, issue: Issue)
    ensures AddIssue(AddIssue(c, issue), issue) == AddIssue(c, issue)
  {
    var d := AddIssue(c, issue);
    var b := GetBucket(c, issue.status);
    if Find(b.issues, issue.id).None? {
      assert At(d, issue.status)[|b.issues|] == issue;
      assert issue in At(d, issue.status);
    }
  }

  lemma RemoveTwice(c: Cache, id: string)
    requires Coherent(c)
    ensures RemoveIssue(RemoveIssue(c, id), id) == RemoveIssue(c, id)
  {
    RemoveRefines(c, id);
    assert id !in Abs(RemoveIssue(c, id));
  }

  lemma {:induction false} ReplacingSame(issues: seq<Issue>, id: string, merged: Issue)
    requires forall i :: i in issues && i.id == id ==> i == merged
    ensures Replacing(issues, id, merged) == issues
  {
    if issues != [] {
      ReplacingSame(issues[1..], id, merged);
    }
  }

  lemma PatchTwice(c: Cache, id: string, patch: Patch)
    requires Coherent(c)
    ensures PatchIssue(PatchIssue(c, id, patch), id, patch) == PatchIssue(c, id, patch)
  {
    hide Locate, Abs;
    PatchRefines(c, id, patch);
    var d := PatchIssue(c, id, patch);
    if Locate(c, id).Some? && Locate(d, id).Some? {
      PatchedLocation(c, id, patch);
      hide Coherent, Replacing;
      Around(d, id, Backlog);
      var Location(s, i) := Locate(d, id).value;
      assert Merge(i, patch) == i && Or(patch.status, s) == s;
      ReplacingSame(At(d, s), id, i);
      assert s in d;
    }
  }

  /** Where the patched issue stands, and what it is. */
  lemma PatchedLocation(c: Cache, id: string, patch: Patch)
    requires Coherent(c) && Locate(c, id).Some? && Locate(PatchIssue(c, id, patch), id).Some?
    ensures Locate(PatchIssue(c, id, patch), id).value
         == Location(NextStatus(c, id, patch), Merge(Locate(c, id).value.issue, patch))
  {
    hide Locate, PatchIssue;
    var d := PatchIssue(c, id, patch);
    LocateMeans(d, id);
    PatchEffect(c, id, patch, Locate(d, id).value.status);
  }
}
