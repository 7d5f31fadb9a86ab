/** Fetching issues a page at a time: the union of three first pages, load-more, the Gantt walk and
    the chunked children request (packages/core/issues/queries.ts, packages/core/issues/mutations.ts). */
module IssuePaging {
  import opened Text
  import opened Sequences
  import opened IssueBuckets
  import opened QueryCache

  const ISSUE_PAGE_SIZE: nat := 50
  const GANTT_PAGE_LIMIT: nat := 500
  const GANTT_MAX_ISSUES: nat := 10000
  const CHUNK_SIZE: nat := 200

  function Min(a: int, b: int): int {
    if a <= b then a else b
  }

  function IdsOf(issues: seq<Issue>): set<string> {
    set i | i in issues :: i.id
  }

  /** The issues of a page whose id is not among the ids seen, nor earlier in the page. */
  function Fresh(page: seq<Issue>, seen: set<string>): seq<Issue> {
    if page == [] then []
    else if page[0].id in seen then Fresh(page[1..], seen)
    else [page[0]] + Fresh(page[1..], seen + {page[0].id})
  }

  lemma {:induction false} FreshIds(page: seq<Issue>, seen: set<string>)
    ensures IdsOf(Fresh(page, seen)) == IdsOf(page) - seen
  {
    hide IdsOf;
    if page == [] {
      NoIds();
    } else {
      var more := if page[0].id in seen then seen else seen + {page[0].id};
      FreshIds(page[1..], more);
      assert page == [page[0]] + page[1..];
      IdsOfCons(page[0], page[1..]);
      IdsOfCons(page[0], Fresh(page[1..], more));
    }
  }

  lemma {:induction false} FreshFacts(page: seq<Issue>, seen: set<string>)
    ensures UniqueIds(Fresh(page, seen))
    ensures forall i :: i in Fresh(page, seen) ==> i in page && i.id !in seen
    ensures IdsOf(Fresh(page, seen)) == IdsOf(page) - seen
  {
    hide IdsOf;
    FreshIds(page, seen);
    if page != [] {
      var more := if page[0].id in seen then seen else seen + {page[0].id};
      FreshFacts(page[1..], more);
      assert page == [page[0]] + page[1..];
    }
  }

  lemma IdsOfCons(i: Issue, issues: seq<Issue>)
    ensures IdsOf([i] + issues) == {i.id} + IdsOf(issues)
  {
    assert forall j :: j in [i] + issues <==> j == i || j in issues;
  }

  lemma {:induction false} FreshSnoc(page: seq<Issue>, last: Issue, seen: set<string>)
    ensures Fresh(page + [last], seen)
         == Fresh(page, seen) + if last.id in seen || last.id in IdsOf(page) then [] else [last]
  {
    if page == [] {
      assert page + [last] == [last];
    } else {
      var more := if page[0].id in seen then seen else seen + {page[0].id};
      assert (page + [last])[1..] == page[1..] + [last];
      FreshSnoc(page[1..], last, more);
      assert page == [page[0]] + page[1..];
      assert IdsOf(page) == {page[0].id} + IdsOf(page[1..]);
    }
  }

  // ---------------------------------------------------------------------------
  // The union of several first pages
  // ---------------------------------------------------------------------------

  function Joined(pages: seq<Cache>, s: Status): seq<Issue> {
    if pages == [] then [] else Joined(pages[..|pages| - 1], s) + At(pages[|pages| - 1], s)
  }

  method MergeBuckets(pages: seq<Cache>, s: Status) returns (merged: seq<Issue>)
    ensures merged == Fresh(Joined(pages, s), {})
  {
    var seen: set<string> := {};
    merged := [];
    for p := 0 to |pages|
      invariant merged == Fresh(Joined(pages[..p], s), {}) && seen == IdsOf(Joined(pages[..p], s))
    {
      assert pages[..p + 1][..p] == pages[..p];
      ghost var before := Joined(pages[..p], s);
      var issues := At(pages[p], s);
      assert before + issues[..0] == before;
      for k := 0 to |issues|
        invariant merged == Fresh(before + issues[..k], {}) && seen == IdsOf(before + issues[..k])
      {
        assert before + issues[..k + 1] == before + issues[..k] + [issues[k]];
        FreshSnoc(before + issues[..k], issues[k], {});
        IdsOfSnoc(before + issues[..k], issues[k]);
        if issues[k].id !in seen {
          seen := seen + {issues[k].id};
          merged := merged + [issues[k]];
        }
      }
      assert issues[..|issues|] == issues;
    }
    assert pages[..|pages|] == pages;
  }

  lemma IdsOfSnoc(issues: seq<Issue>, i: Issue)
    ensures IdsOf(issues + [i]) == IdsOf(issues) + {i.id}
  {
    assert forall j :: j in issues + [i] <==> j in issues || j == i;
  }

  method MergeFirstPages(pages: seq<Cache>) returns (c: Cache)
    ensures forall s :: s in c <==> s in PAGINATED
    ensures forall s :: s in PAGINATED ==> At(c, s) == Fresh(Joined(pages, s), {}) && c[s].total == |At(c, s)|
  {
    c := map[];
    for n := 0 to |PAGINATED|
      invariant forall s :: s in c <==> s in PAGINATED[..n]
      invariant forall s :: s in c ==> c[s].issues == Fresh(Joined(pages, s), {}) && c[s].total == |c[s].issues|
    {
      var merged := MergeBuckets(pages, PAGINATED[n]);
      assert PAGINATED[..n + 1] == PAGINATED[..n] + [PAGINATED[n]];
      c := SetBucket(c, PAGINATED[n], Bucket(merged, |merged|));
    }
    assert PAGINATED[..|PAGINATED|] == PAGINATED;
  }

  /** The merged cache: each bucket shows the union of its pages, every id once. */
  ghost predicate Merged(c: Cache, pages: seq<Cache>) {
    && (forall s :: s in c <==> s in PAGINATED)
    && (forall s :: s in PAGINATED ==> At(c, s) == Fresh(Joined(pages, s), {}) && c[s].total == |At(c, s)|)
  }

  /** No response reports an issue under another status than some other response. */
  ghost predicate Agreeing(pages: seq<Cache>) {
    forall s, t, i, j ::
        Paginated(s) && Paginated(t) && i in Joined(pages, s) && j in Joined(pages, t) && i.id == j.id ==> s == t
  }

  lemma SameIds(xs: seq<Issue>, ys: seq<Issue>, i: Issue) returns (j: Issue)
    requires IdsOf(xs) == IdsOf(ys) && i in xs
    ensures j in ys && j.id == i.id
  {
    assert i.id in IdsOf(ys);
    j :| j in ys && j.id == i.id;
  }

  lemma MergedBucket(c: Cache, pages: seq<Cache>, s: Status)
    requires Merged(c, pages) && Paginated(s)
    requires forall i :: i in Joined(pages, s) ==> i.status == s
    ensures Tidy(GetBucket(c, s), s) && IdsOf(At(c, s)) == IdsOf(Joined(pages, s))
    ensures forall i :: i in At(c, s) ==> i in Joined(pages, s)
  {
    PaginatedIsListed(s);
    FreshFacts(Joined(pages, s), {});
    hide Fresh, Joined, PAGINATED;
  }

  /** The union is a coherent cache exactly when the responses agree on every issue's status:
      within a column the client removes duplicates, between columns it does not. */
  lemma MergedCoherentIff(pages: seq<Cache>, c: Cache)
    requires Merged(c, pages)
    requires forall s, i :: Paginated(s) && i in Joined(pages, s) ==> i.status == s
    ensures Coherent(c) <==> Agreeing(pages)
  {
    hide Merged, Joined, IdsOf, GetBucket, Tidy;
    forall s | Paginated(s)
      ensures Tidy(GetBucket(c, s), s) && IdsOf(At(c, s)) == IdsOf(Joined(pages, s))
      ensures forall i :: i in At(c, s) ==> i in Joined(pages, s)
    {
      MergedBucket(c, pages, s);
    }
    if Coherent(c) {
      forall s, t, i, j | Paginated(s) && Paginated(t) && i in Joined(pages, s) && j in Joined(pages, t) && i.id == j.id
        ensures s == t
      {
        var a := SameIds(Joined(pages, s), At(c, s), i);
        var b := SameIds(Joined(pages, t), At(c, t), j);
      }
    }
  }

  lemma JoinedTwo(pages: seq<Cache>, s: Status)
    requires |pages| == 2
    ensures Joined(pages, s) == At(pages[0], s) + At(pages[1], s)
  {
    assert pages[..1] == [pages[0]];
    assert Joined([pages[0]], s) == [] + At(pages[0], s);
  }

  /** An issue that moved between two of the requests is shown in both columns. */
  lemma MovedBetweenRequests(i: Issue, s: Status, c: Cache)
    requires Paginated(i.status) && Paginated(s) && s != i.status
    requires Merged(c, [map[i.status := Bucket([i], 1)], map[s := Bucket([i.(status := s)], 1)]])
    ensures At(c, i.status) == [i] && At(c, s) == [i.(status := s)] && !Coherent(c)
  {
    var moved := i.(status := s);
    var pages: seq<Cache> := [map[i.status := Bucket([i], 1)], map[s := Bucket([moved], 1)]];
    JoinedTwo(pages, i.status);
    JoinedTwo(pages, s);
    assert [] + [moved] == [moved] && [i] + [] == [i];
    hide Joined, Fresh, PAGINATED, Coherent;
    PaginatedIsListed(i.status);
    PaginatedIsListed(s);
    FreshOne(i);
    FreshOne(moved);
    hide Merged, At;
    ClashBreaks(c, i.status, s, i, moved);
  }

  lemma FreshOne(i: Issue)
    ensures Fresh([i], {}) == [i]
  {
  }

  // ---------------------------------------------------------------------------
  // Load more
  // ---------------------------------------------------------------------------

  function LoadMore(c: Cache, s: Status, page: seq<Issue>, total: nat): Cache {
    var prev := GetBucket(c, s);
    SetBucket(c, s, Bucket(prev.issues + NotIn(page, IdsOf(prev.issues)), total))
  }

  /** `res.issues.filter(i => !existingIds.has(i.id))` */
  function NotIn(page: seq<Issue>, seen: set<string>): seq<Issue> {
    if page == [] then [] else (if page[0].id in seen then [] else [page[0]]) + NotIn(page[1..], seen)
  }

  lemma {:induction false} NotInNothingSeen(page: seq<Issue>, seen: set<string>)
    requires forall i :: i in page ==> i.id !in seen
    ensures NotIn(page, seen) == page
  {
    if page != [] {
      assert page == [page[0]] + page[1..];
      NotInNothingSeen(page[1..], seen);
    }
  }

  /** Against a list that does not move, the column stays a prefix of it and grows by a page. */
  lemma LoadMoreExtendsPrefix(c: Cache, s: Status, all: seq<Issue>, n: nat)
    requires UniqueIds(all) && n <= |all| && At(c, s) == all[..n]
    ensures var m := Min(n + 50, |all|);
            var d := LoadMore(c, s, all[n..m], |all|);
            At(d, s) == all[..m] && Unloaded(d, s) == |all| - m
  {
    var m := Min(n + ISSUE_PAGE_SIZE, |all|);
    var page := all[n..m];
    forall i | i in page
      ensures i.id !in IdsOf(all[..n])
    {
      var k :| 0 <= k < |page| && page[k] == i;
      assert all[n + k] == i;
      assert forall j :: 0 <= j < n ==> all[..n][j] == all[j];
    }
    NotInNothingSeen(page, IdsOf(all[..n]));
    assert all[..n] + page == all[..m];
  }

  /** The server's page at an offset. */
  function PageAt(all: seq<Issue>, offset: nat): seq<Issue> {
    if offset <= |all| then all[offset..Min(offset + ISSUE_PAGE_SIZE, |all|)] else []
  }

  /** One press of load-more: nothing happens unless something is missing. */
  function Press(c: Cache, s: Status, all: seq<Issue>): Cache {
    if Unloaded(c, s) <= 0 then c else LoadMore(c, s, PageAt(all, |At(c, s)|), |all|)
  }

  function Presses(c: Cache, s: Status, all: seq<Issue>, k: nat): Cache {
    if k == 0 then c else Press(Presses(c, s, all, k - 1), s, all)
  }

  lemma {:induction false} NotInIds(page: seq<Issue>, seen: set<string>)
    ensures IdsOf(NotIn(page, seen)) == IdsOf(page) - seen
    ensures |NotIn(page, seen)| <= |page|
  {
    if page != [] {
      NotInIds(page[1..], seen);
      assert page == [page[0]] + page[1..];
      IdsOfCons(page[0], page[1..]);
      if page[0].id in seen {
        assert NotIn(page, seen) == NotIn(page[1..], seen);
      } else {
        IdsOfCons(page[0], NotIn(page[1..], seen));
      }
      hide IdsOf;
    }
  }

  lemma IdsOfAppend(a: seq<Issue>, b: seq<Issue>)
    ensures IdsOf(a + b) == IdsOf(a) + IdsOf(b)
  {
    assert forall i :: i in a + b <==> i in a || i in b;
  }

  /** In a list without repeated ids the front and the rest share no id. */
  lemma FrontAndRest(all: seq<Issue>, n: nat, m: nat)
    requires UniqueIds(all) && n <= m <= |all|
    ensures IdsOf(all[..n]) !! IdsOf(all[n..m])
    ensures IdsOf(all[..m]) == IdsOf(all[..n]) + IdsOf(all[n..m])
  {
    assert all[..n] + all[n..m] == all[..m];
    IdsOfAppend(all[..n], all[n..m]);
    forall i, j | i in all[..n] && j in all[n..m]
      ensures i.id != j.id
    {
      var x :| 0 <= x < n && all[x] == i;
      var y :| 0 <= y < |all[n..m]| && all[n..m][y] == j;
      assert all[n + y] == j;
    }
  }

  /** The column holds the front of the server's list, as far as the column's own length goes. */
  ghost predicate HasFront(c: Cache, s: Status, all: seq<Issue>) {
    IdsOf(all[..Min(|At(c, s)|, |all|)]) <= IdsOf(At(c, s))
  }

  lemma LoadMoreIds(c: Cache, s: Status, page: seq<Issue>, total: nat)
    ensures IdsOf(At(LoadMore(c, s, page, total), s)) == IdsOf(At(c, s)) + IdsOf(page)
    ensures |At(c, s)| <= |At(LoadMore(c, s, page, total), s)| <= |At(c, s)| + |page|
  {
    hide IdsOf;
    NotInIds(page, IdsOf(At(c, s)));
    IdsOfAppend(At(c, s), NotIn(page, IdsOf(At(c, s))));
  }

  /** Whatever the column holds: after load-more it has the list up to the page's end if and only if
      it had the front of the list before. The offset is only a count. */
  lemma LoadMoreCompleteIff(c: Cache, s: Status, all: seq<Issue>)
    requires UniqueIds(all)
    ensures var end := Min(|At(c, s)| + 50, |all|);
            IdsOf(all[..end]) <= IdsOf(At(LoadMore(c, s, PageAt(all, |At(c, s)|), |all|), s)) <==> HasFront(c, s, all)
  {
    hide IdsOf, LoadMore;
    var n := |At(c, s)|;
    LoadMoreIds(c, s, PageAt(all, n), |all|);
    if n <= |all| {
      FrontAndRest(all, n, Min(n + ISSUE_PAGE_SIZE, |all|));
    } else {
      NoIds();
    }
  }

  lemma NoIds()
    ensures IdsOf([]) == {}
  {
  }

  lemma {:induction false} IdsCount(issues: seq<Issue>)
    ensures |IdsOf(issues)| <= |issues|
    ensures UniqueIds(issues) ==> |IdsOf(issues)| == |issues|
  {
    if issues == [] {
      NoIds();
    } else {
      assert issues == [issues[0]] + issues[1..];
      IdsCount(issues[1..]);
      IdsOfCons(issues[0], issues[1..]);
      assert UniqueIds(issues) ==> UniqueIds(issues[1..]) && issues[0].id !in IdsOf(issues[1..]);
    }
  }

  /** A column that is no longer than the list and holds its front holds no other ids. */
  lemma FrontFixesIds(c: Cache, s: Status, all: seq<Issue>)
    requires UniqueIds(all) && |At(c, s)| <= |all| && HasFront(c, s, all)
    ensures IdsOf(At(c, s)) == IdsOf(all[..|At(c, s)|])
  {
    var front := all[..|At(c, s)|];
    assert UniqueIds(front);
    hide IdsOf, UniqueIds;
    IdsCount(front);
    IdsCount(At(c, s));
    SubsetSize(IdsOf(front), IdsOf(At(c, s)));
  }

  lemma PressKeepsFront(c: Cache, s: Status, all: seq<Issue>)
    requires UniqueIds(all)
    ensures HasFront(Press(c, s, all), s, all) <==> HasFront(c, s, all)
  {
    if Unloaded(c, s) > 0 {
      var n := |At(c, s)|;
      var d := LoadMore(c, s, PageAt(all, n), |all|);
      hide IdsOf, LoadMore;
      LoadMoreIds(c, s, PageAt(all, n), |all|);
      if n <= |all| {
        var m := Min(n + ISSUE_PAGE_SIZE, |all|);
        FrontAndRest(all, n, |At(d, s)|);
        FrontAndRest(all, n, m);
        FrontAndRest(all, |At(d, s)|, m);
      } else {
        NoIds();
      }
    }
  }

  lemma {:induction false} PressesKeepFront(c: Cache, s: Status, all: seq<Issue>, k: nat)
    requires UniqueIds(all)
    ensures HasFront(Presses(c, s, all, k), s, all) <==> HasFront(c, s, all)
    ensures Unloaded(c, s) <= 0 ==> Presses(c, s, all, k) == c
  {
    if k > 0 {
      PressesKeepFront(c, s, all, k - 1);
      hide HasFront;
      PressKeepsFront(Presses(c, s, all, k - 1), s, all);
    }
  }

  /** A column with the front gets a whole page, and its count of missing issues becomes right. */
  lemma PressGrows(c: Cache, s: Status, all: seq<Issue>)
    requires UniqueIds(all) && |At(c, s)| <= |all| && HasFront(c, s, all) && Unloaded(c, s) > 0
    ensures |At(Press(c, s, all), s)| == Min(|At(c, s)| + 50, |all|)
    ensures Unloaded(Press(c, s, all), s) == |all| - |At(Press(c, s, all), s)|
  {
    var n := |At(c, s)|;
    var m := Min(n + ISSUE_PAGE_SIZE, |all|);
    FrontFixesIds(c, s, all);
    FrontAndRest(all, n, m);
    forall i | i in all[n..m]
      ensures i.id !in IdsOf(At(c, s))
    {
      assert i.id in IdsOf(all[n..m]);
    }
    AppendsPage(c, s, all[n..m], |all|);
  }

  lemma {:induction false} PressesShift(c: Cache, s: Status, all: seq<Issue>, k: nat)
    ensures Presses(Press(c, s, all), s, all, k) == Presses(c, s, all, k + 1)
  {
    hide Press;
    if k > 0 {
      PressesShift(c, s, all, k - 1);
    }
  }

  lemma {:induction false} PressesReach(c: Cache, s: Status, all: seq<Issue>) returns (k: nat)
    requires UniqueIds(all) && HasFront(c, s, all) && (Unloaded(c, s) > 0 || |At(c, s)| >= |all|)
    ensures IdsOf(all) <= IdsOf(At(Presses(c, s, all, k), s))
    decreases |all| - |At(c, s)|
  {
    if |At(c, s)| >= |all| {
      assert all[..|all|] == all;
      k := 0;
    } else {
      PressGrows(c, s, all);
      PressKeepsFront(c, s, all);
      hide Press, HasFront, IdsOf;
      k := PressesReach(Press(c, s, all), s, all);
      PressesShift(c, s, all, k);
      k := k + 1;
    }
  }

  /** Pressing load-more completes a column, whatever it holds and whatever its total says, if and only if it
      holds the front of the server's list and either counts something as missing or is long enough already:
      a total that is too small disables the button, an offset that is only a count skips what is not loaded. */
  lemma PressesCompleteIff(c: Cache, s: Status, all: seq<Issue>)
    requires UniqueIds(all)
    ensures (exists k: nat :: IdsOf(all) <= IdsOf(At(Presses(c, s, all, k), s)))
       <==> IdsOf(all[..Min(|At(c, s)|, |all|)]) <= IdsOf(At(c, s)) && (Unloaded(c, s) > 0 || |At(c, s)| >= |all|)
  {
    if HasFront(c, s, all) && (Unloaded(c, s) > 0 || |At(c, s)| >= |all|) {
      var k := PressesReach(c, s, all);
    }
    if k: nat :| IdsOf(all) <= IdsOf(At(Presses(c, s, all, k), s)) {
      PressesKeepFront(c, s, all, k);
      AllHasFront(Presses(c, s, all, k), s, all);
      hide IdsOf, UniqueIds, Presses;
      IdsCount(all);
      IdsCount(At(c, s));
      SubsetSize(IdsOf(all), IdsOf(At(Presses(c, s, all, k), s)));
    }
  }

  lemma AllHasFront(c: Cache, s: Status, all: seq<Issue>)
    requires IdsOf(all) <= IdsOf(At(c, s))
    ensures HasFront(c, s, all)
  {
    forall i | i in all[..Min(|At(c, s)|, |all|)]
      ensures i.id in IdsOf(At(c, s))
    {
      assert i in all && i.id in IdsOf(all);
    }
  }

  /** A column whose next page is already loaded in full, yet counts something as missing, is stuck:
      no number of presses brings another issue. */
  lemma {:induction false} PressesStall(c: Cache, s: Status, all: seq<Issue>, k: nat)
    requires |At(c, s)| < |all| && Unloaded(c, s) > 0
    requires IdsOf(PageAt(all, |At(c, s)|)) <= IdsOf(At(c, s))
    ensures At(Presses(c, s, all, k), s) == At(c, s) && Unloaded(Presses(c, s, all, k), s) > 0
  {
    if k > 0 {
      PressesStall(c, s, all, k - 1);
      hide Press;
      PressStalls(Presses(c, s, all, k - 1), s, all);
    }
  }

  lemma PressStalls(c: Cache, s: Status, all: seq<Issue>)
    requires |At(c, s)| < |all| && Unloaded(c, s) > 0
    requires IdsOf(PageAt(all, |At(c, s)|)) <= IdsOf(At(c, s))
    ensures At(Press(c, s, all), s) == At(c, s) && Unloaded(Press(c, s, all), s) > 0
  {
    var page := PageAt(all, |At(c, s)|);
    assert forall i :: i in page ==> i.id in IdsOf(page);
    hide PageAt, IdsOf;
    NotInAllSeen(page, IdsOf(At(c, s)));
  }

  lemma {:induction false} NotInAllSeen(page: seq<Issue>, seen: set<string>)
    requires forall i :: i in page ==> i.id in seen
    ensures NotIn(page, seen) == []
  {
    if page != [] {
      NotInAllSeen(page[1..], seen);
    }
  }

  /** A page or more of new issues in front of a loaded column leaves it stuck: the next page is what is
      already loaded. */
  lemma InsertedInFrontStalls(c: Cache, s: Status, newer: seq<Issue>, rest: seq<Issue>, k: nat)
    requires 50 <= |newer| <= |At(c, s)| && Unloaded(c, s) > 0
    ensures At(Presses(c, s, newer + At(c, s) + rest, k), s) == At(c, s)
  {
    var all, n := newer + At(c, s) + rest, |At(c, s)|;
    var page := PageAt(all, n);
    forall i | i in page
      ensures i.id in IdsOf(At(c, s))
    {
      var x :| 0 <= x < |page| && page[x] == i;
      assert all[n + x] == At(c, s)[n + x - |newer|];
    }
    PressesStall(c, s, all, k);
  }

  /** A column whose total says that nothing is missing never shows what the server created since. */
  lemma StaleTotalDisables(c: Cache, s: Status, all: seq<Issue>, n: nat, k: nat)
    requires UniqueIds(all) && n < |all| && At(c, s) == all[..n] && Unloaded(c, s) <= 0
    ensures all[n].id !in IdsOf(At(Presses(c, s, all, k), s))
  {
    PressesKeepFront(c, s, all, k);
    FrontAndRest(all, n, n + 1);
    assert all[n] in all[n..n + 1];
  }

  /** The list after the server lost one issue. */
  function Lost(all: seq<Issue>, j: nat): seq<Issue>
    requires j < |all|
  {
    all[..j] + all[j + 1..]
  }

  /** The column shows the first n issues, and the later ones up to m without the n-th. */
  ghost predicate ShowsAround(c: Cache, s: Status, all: seq<Issue>, n: nat, m: nat) {
    n < m <= |all| && At(c, s) == all[..n] + all[n + 1..m]
  }

  lemma {:induction false} PressesSkip(c: Cache, s: Status, all: seq<Issue>, n: nat, j: nat, k: nat)
    requires UniqueIds(all) && j < n < |all| && ShowsAround(c, s, all, n, n + 1) && Unloaded(c, s) > 0
    ensures ShowsAround(Presses(c, s, Lost(all, j), k), s, all, n, Min(n + 1 + 50 * k, |all|))
    ensures k > 0 ==>
              Unloaded(Presses(c, s, Lost(all, j), k), s) == |all| - Min(n + 1 + 50 * k, |all|)
  {
    hide Press, Lost, UniqueIds, At, Unloaded, ShowsAround;
    if k > 0 {
      PressesSkip(c, s, all, n, j, k - 1);
      PressesStep(c, s, Lost(all, j), k);
      var before := Presses(c, s, Lost(all, j), k - 1);
      hide Presses;
      PressBehindGap(before, s, all, n, j, Min(n + 1 + ISSUE_PAGE_SIZE * (k - 1), |all|));
    }
  }

  /** If the server lost any loaded issue and the client has not heard, the first issue not yet loaded
      is skipped for good: presses load the rest behind it, and then nothing counts as missing. */
  lemma LoadMoreSkips(c: Cache, s: Status, all: seq<Issue>, n: nat, j: nat, k: nat)
    requires UniqueIds(all) && j < n < |all| && At(c, s) == all[..n] && Unloaded(c, s) > 0
    ensures At(Presses(c, s, Lost(all, j), k), s) == all[..n] + all[n + 1..Min(n + 1 + 50 * k, |all|)]
    ensures all[n].id !in IdsOf(At(Presses(c, s, Lost(all, j), k), s))
    ensures k > 0 ==>
              Unloaded(Presses(c, s, Lost(all, j), k), s) == |all| - Min(n + 1 + 50 * k, |all|)
  {
    hide Presses, Lost, IdsOf, Unloaded, UniqueIds;
    assert all[..n] + all[n + 1..n + 1] == all[..n];
    PressesSkip(c, s, all, n, j, k);
    NeverShown(all, n, Min(n + 1 + ISSUE_PAGE_SIZE * k, |all|));
  }

  lemma PressesStep(c: Cache, s: Status, all: seq<Issue>, k: nat)
    requires k > 0
    ensures Presses(c, s, all, k) == Press(Presses(c, s, all, k - 1), s, all)
    ensures Presses(c, s, all, 0) == c
  {
  }

  lemma NeverShown(all: seq<Issue>, n: nat, m: nat)
    requires UniqueIds(all) && n < m <= |all|
    ensures all[n].id !in IdsOf(all[..n] + all[n + 1..m])
  {
    var shown := all[..n] + all[n + 1..m];
    forall i | i in shown
      ensures i.id != all[n].id
    {
      var k :| 0 <= k < |shown| && shown[k] == i;
      assert shown[k] == if k < n then all[k] else all[k + 1];
    }
  }

  lemma PressBehindGap(c: Cache, s: Status, all: seq<Issue>, n: nat, j: nat, m: nat)
    requires UniqueIds(all) && j < n && ShowsAround(c, s, all, n, m)
    requires Unloaded(c, s) > 0 || m == |all|
    ensures ShowsAround(Press(c, s, Lost(all, j)), s, all, n, Min(m + ISSUE_PAGE_SIZE, |all|))
    ensures Unloaded(c, s) > 0 ==> Unloaded(Press(c, s, Lost(all, j)), s) == |all| - Min(m + ISSUE_PAGE_SIZE, |all|)
    ensures Unloaded(c, s) <= 0 ==> Press(c, s, Lost(all, j)) == c
  {
    if Unloaded(c, s) > 0 {
      var end := Min(m + ISSUE_PAGE_SIZE, |all|);
      assert |At(c, s)| == m - 1;
      PageBehindGap(all, j, m);
      hide Lost, PageAt, IdsOf;
      GapIds(all, n, m, end);
      AppendsPage(c, s, all[m..end], |all| - 1);
      hide LoadMore, UniqueIds;
      CloseUp(all, n, m, end);
    }
  }

  lemma AppendsPage(c: Cache, s: Status, page: seq<Issue>, total: nat)
    requires forall i :: i in page ==> i.id !in IdsOf(At(c, s))
    ensures At(LoadMore(c, s, page, total), s) == At(c, s) + page
    ensures Unloaded(LoadMore(c, s, page, total), s) == total - |At(c, s)| - |page|
  {
    hide IdsOf;
    NotInNothingSeen(page, IdsOf(At(c, s)));
  }

  /** With one issue gone before it, offset m - 1 reads the old list from m on. */
  lemma PageBehindGap(all: seq<Issue>, j: nat, m: nat)
    requires j < m <= |all|
    ensures PageAt(Lost(all, j), m - 1) == all[m..Min(m + ISSUE_PAGE_SIZE, |all|)]
  {
  }

  lemma CloseUp(all: seq<Issue>, n: nat, m: nat, end: nat)
    requires n < m <= end <= |all|
    ensures (all[..n] + all[n + 1..m]) + all[m..end] == all[..n] + all[n + 1..end]
  {
  }

  lemma GapIds(all: seq<Issue>, n: nat, m: nat, end: nat)
    requires UniqueIds(all) && n < m <= end <= |all|
    ensures forall i :: i in all[m..end] ==> i.id !in IdsOf(all[..n] + all[n + 1..m])
  {
    FrontAndRest(all, m, end);
    var shown := all[..n] + all[n + 1..m];
    forall i | i in shown
      ensures i in all[..m]
    {
      var k :| 0 <= k < |shown| && shown[k] == i;
      assert all[..m][if k < n then k else k + 1] == i;
    }
  }

  lemma {:induction false} NotInTidies(page: seq<Issue>, seen: set<string>)
    ensures forall i :: i in NotIn(page, seen) <==> i in page && i.id !in seen
    ensures UniqueIds(page) ==> UniqueIds(NotIn(page, seen))
  {
    if page != [] {
      NotInTidies(page[1..], seen);
      assert page == [page[0]] + page[1..];
      assert UniqueIds(page) ==> UniqueIds(page[1..]) && forall i :: i in page[1..] ==> i.id != page[0].id;
    }
  }

  lemma JoinTidies(a: seq<Issue>, b: seq<Issue>)
    requires UniqueIds(a) && UniqueIds(b) && forall i :: i in b ==> i.id !in IdsOf(a)
    ensures UniqueIds(a + b)
  {
    forall x, y | 0 <= x < y < |a + b|
      ensures (a + b)[x].id != (a + b)[y].id
    {
      if x < |a| <= y {
        assert a[x] in a && b[y - |a|] in b;
      }
    }
  }

  /** No issue of the page is loaded in another column. */
  ghost predicate NotElsewhere(c: Cache, s: Status, page: seq<Issue>) {
    forall t, i :: Paginated(t) && t != s && i in page ==> i.id !in IdsOf(At(c, t))
  }

  /** What the server answers for one status: different issues, all of that status. */
  predicate PageOf(page: seq<Issue>, s: Status) {
    UniqueIds(page) && forall i :: i in page ==> i.status == s
  }

  lemma LoadedColumn(c: Cache, s: Status, page: seq<Issue>, total: nat)
    requires Coherent(c) && Paginated(s) && PageOf(page, s)
    ensures var column := At(LoadMore(c, s, page, total), s);
            && UniqueIds(column) && (forall i :: i in column ==> i.status == s)
            && (forall i :: i in column <==> i in At(c, s) || (i in page && i.id !in IdsOf(At(c, s))))
  {
    NotInTidies(page, IdsOf(At(c, s)));
    assert Tidy(GetBucket(c, s), s);
    JoinTidies(At(c, s), NotIn(page, IdsOf(At(c, s))));
  }

  lemma ClashBreaks(d: Cache, s: Status, t: Status, i: Issue, j: Issue)
    requires Paginated(s) && Paginated(t) && s != t && i in At(d, s) && j in At(d, t) && i.id == j.id
    ensures !Coherent(d)
  {
  }

  lemma ElsewhereBreaks(c: Cache, s: Status, page: seq<Issue>, total: nat)
    requires Coherent(c) && Paginated(s) && PageOf(page, s) && !NotElsewhere(c, s, page)
    ensures !Coherent(LoadMore(c, s, page, total))
  {
    hide UniqueIds, PageOf, Coherent;
    var d := LoadMore(c, s, page, total);
    LoadedColumn(c, s, page, total);
    var t, i :| Paginated(t) && t != s && i in page && i.id in IdsOf(At(c, t));
    assert At(d, t) == At(c, t);
    hide LoadMore, At;
    var j :| j in At(c, t) && j.id == i.id;
    if i.id in IdsOf(At(c, s)) {
      var k :| k in At(c, s) && k.id == i.id;
      ClashBreaks(c, s, t, k, j);
    } else {
      ClashBreaks(d, s, t, i, j);
    }
  }

  lemma TidyAfter(c: Cache, s: Status, page: seq<Issue>, total: nat, t: Status)
    requires Coherent(c) && Paginated(s) && PageOf(page, s) && Paginated(t)
    requires |At(LoadMore(c, s, page, total), s)| <= total
    ensures Tidy(GetBucket(LoadMore(c, s, page, total), t), t)
  {
    hide UniqueIds, PageOf, NotIn;
    if t == s {
      LoadedColumn(c, s, page, total);
    }
  }

  lemma NotElsewhereKeeps(c: Cache, s: Status, page: seq<Issue>, total: nat)
    requires Coherent(c) && Paginated(s) && PageOf(page, s) && NotElsewhere(c, s, page)
    requires |At(LoadMore(c, s, page, total), s)| <= total
    ensures Coherent(LoadMore(c, s, page, total))
  {
    var d := LoadMore(c, s, page, total);
    forall t | Paginated(t)
      ensures Tidy(GetBucket(d, t), t)
    {
      TidyAfter(c, s, page, total, t);
    }
    hide UniqueIds, PageOf, Tidy, NotElsewhere;
    LoadedColumn(c, s, page, total);
    assert forall t :: t != s ==> At(d, t) == At(c, t);
    hide LoadMore, At, IdsOf;
    forall t, u, i, j | Paginated(t) && Paginated(u) && i in At(d, t) && j in At(d, u) && i.id == j.id
      ensures t == u
    {
      if t == s && u != s {
        ApartFrom(c, s, page, u, i, j);
      } else if u == s && t != s {
        ApartFrom(c, s, page, t, j, i);
      }
    }
  }

  lemma ApartFrom(c: Cache, s: Status, page: seq<Issue>, t: Status, i: Issue, j: Issue)
    requires Coherent(c) && NotElsewhere(c, s, page) && Paginated(s) && Paginated(t) && t != s
    requires (i in At(c, s) || i in page) && j in At(c, t)
    ensures i.id != j.id
  {
    hide Tidy;
    assert j.id in IdsOf(At(c, t));
  }

  /** Load-more keeps the cache coherent if and only if no issue of the page is loaded in another column
      and the server's total covers what the column then shows. */
  lemma LoadMoreCoherentIff(c: Cache, s: Status, page: seq<Issue>, total: nat)
    requires Coherent(c) && Paginated(s) && PageOf(page, s)
    ensures Coherent(LoadMore(c, s, page, total)) <==>
            NotElsewhere(c, s, page) && |At(LoadMore(c, s, page, total), s)| <= total
  {
    hide PageOf, NotElsewhere;
    assert GetBucket(LoadMore(c, s, page, total), s).total == total;
    if !NotElsewhere(c, s, page) {
      ElsewhereBreaks(c, s, page, total);
    } else if |At(LoadMore(c, s, page, total), s)| <= total {
      NotElsewhereKeeps(c, s, page, total);
    } else {
      assert !Tidy(GetBucket(LoadMore(c, s, page, total), s), s);
    }
  }

  /** The plain map after load-more: issues of the page that were not shown are. */
  function AbsLoad(m: map<string, Issue>, page: seq<Issue>): map<string, Issue> {
    map id | id in m.Keys + IdsOf(page) :: if id in m then m[id] else Find(page, id).value
  }

  lemma LoadMoreShows(c: Cache, s: Status, page: seq<Issue>, total: nat, id: string, i: Issue)
    requires Coherent(c) && Paginated(s) && PageOf(page, s) && Coherent(LoadMore(c, s, page, total))
    ensures Shows(LoadMore(c, s, page, total), id, i) <==>
            Shows(c, id, i) || (i in page && i.id == id && id !in Abs(c))
  {
    hide UniqueIds, PageOf, Coherent, Abs;
    var d := LoadMore(c, s, page, total);
    LoadedColumn(c, s, page, total);
    LoadMoreCoherentIff(c, s, page, total);
    assert forall t :: t != s ==> At(d, t) == At(c, t);
    NewToMap(c, s, page, id);
    hide LoadMore, At, IdsOf, NotElsewhere;
    if i in page && i.id == id {
      if id !in Abs(c) {
        assert i in At(d, s);
      }
    }
  }

  /** An issue of the page is new to the column exactly when it is new to the map. */
  lemma NewToMap(c: Cache, s: Status, page: seq<Issue>, id: string)
    requires Coherent(c) && Paginated(s) && NotElsewhere(c, s, page)
    ensures forall i :: i in page && i.id == id ==> (id in IdsOf(At(c, s)) <==> id in Abs(c))
  {
    hide Coherent, Abs, At;
    if id in Abs(c) {
      AbsShows(c, id, Abs(c)[id]);
      var t :| Paginated(t) && Abs(c)[id] in At(c, t) && Abs(c)[id].id == id;
      assert id in IdsOf(At(c, t));
    }
    if id in IdsOf(At(c, s)) {
      var j :| j in At(c, s) && j.id == id;
      AbsShows(c, id, j);
    }
  }

  lemma LoadMoreRefines(c: Cache, s: Status, page: seq<Issue>, total: nat)
    requires Coherent(c) && Paginated(s) && PageOf(page, s)
    requires NotElsewhere(c, s, page) && |At(LoadMore(c, s, page, total), s)| <= total
    ensures Coherent(LoadMore(c, s, page, total))
    ensures Abs(LoadMore(c, s, page, total)) == AbsLoad(Abs(c), page)
    ensures forall t :: t != s ==> Unloaded(LoadMore(c, s, page, total), t) == Unloaded(c, t)
  {
    var d, m := LoadMore(c, s, page, total), AbsLoad(Abs(c), page);
    assert UniqueIds(page);
    LoadMoreCoherentIff(c, s, page, total);
    hide Coherent, Abs, LoadMore, PageOf, UniqueIds, Shows, NotElsewhere;
    forall id, i
      ensures Shows(d, id, i) <==> id in m && m[id] == i
    {
      LoadMoreShows(c, s, page, total, id, i);
      AbsShows(c, id, i);
      ShowsUnder(c, id, i);
      if id in IdsOf(page) {
        FindIs(page, id, i);
      }
    }
    AbsIs(d, m);
    OtherColumns(c, s, page, total);
  }

  lemma ShowsUnder(c: Cache, id: string, i: Issue)
    ensures Shows(c, id, i) ==> i.id == id
  {
  }

  lemma FindIs(page: seq<Issue>, id: string, i: Issue)
    requires UniqueIds(page) && id in IdsOf(page)
    ensures Find(page, id).Some?
    ensures Find(page, id).value == i <==> i in page && i.id == id
  {
    var j :| j in page && j.id == id;
    var found := Find(page, id).value;
    if i in page && i.id == id {
      SameIdSameIssue(page, found, i);
    }
  }

  lemma OtherColumns(c: Cache, s: Status, page: seq<Issue>, total: nat)
    ensures forall t :: t != s ==> Unloaded(LoadMore(c, s, page, total), t) == Unloaded(c, t)
  {
    hide NotIn;
  }

  // ---------------------------------------------------------------------------
  // The Gantt walk
  // ---------------------------------------------------------------------------

  datatype Response<T> = Response(issues: seq<T>, total: int)

  function Requests(length: nat): nat {
    if length <= 500 then 1 else (length - 1) / 500 + 1
  }

  /** The server answers from a list that does not move. */
  ghost predicate Serves<T(!new)>(serve: (nat, nat) -> Response<T>, all: seq<T>) {
    forall n: nat, offset: nat ::
      var page := if offset <= |all| then all[offset..Min(offset + 500, |all|)] else [];
      serve(n, offset) == Response(page, |all|)
  }

  function Answers<T>(serve: (nat, nat) -> Response<T>, n: nat): seq<T> {
    if n == 0 then [] else Answers(serve, n - 1) + serve(n - 1, GANTT_PAGE_LIMIT * (n - 1)).issues
  }

  /** What has been fetched of every fixed list the server may be holding. */
  ghost predicate OnTrack<T(!new)>(serve: (nat, nat) -> Response<T>, issues: seq<T>, requests: nat) {
    forall all :: Serves(serve, all) ==> Fetched(all, issues, requests)
  }

  ghost predicate Fetched<T>(all: seq<T>, issues: seq<T>, requests: nat) {
    var offset := GANTT_PAGE_LIMIT * requests;
    (requests == 0 || offset < |all|) && offset <= |all| && issues == all[..offset]
  }

  /** All of the fixed list, up to the cap, with as few requests as its length allows. */
  ghost predicate Complete<T(!new)>(serve: (nat, nat) -> Response<T>, issues: seq<T>, requests: nat) {
    forall all :: Serves(serve, all) ==>
        issues == all[..Min(|all|, 10000)] && requests == Min(20, Requests(|all|))
  }

  lemma NextPage<T>(all: seq<T>, issues: seq<T>, n: nat, page: seq<T>)
    requires n < 20 && Fetched(all, issues, n)
    requires page == all[GANTT_PAGE_LIMIT * n..Min(GANTT_PAGE_LIMIT * n + GANTT_PAGE_LIMIT, |all|)]
    requires |page| >= GANTT_PAGE_LIMIT && |issues + page| < |all|
    ensures Fetched(all, issues + page, n + 1)
  {
  }

  lemma Stop<T(!new)>(serve: (nat, nat) -> Response<T>, issues: seq<T>, n: nat)
    requires n < 20 && OnTrack(serve, issues, n)
    requires var res := serve(n, GANTT_PAGE_LIMIT * n);
             |res.issues| < GANTT_PAGE_LIMIT || |issues + res.issues| >= res.total
    ensures Complete(serve, issues + serve(n, GANTT_PAGE_LIMIT * n).issues, n + 1)
  {
    var res := serve(n, GANTT_PAGE_LIMIT * n);
    forall all | Serves(serve, all)
      ensures issues + res.issues == all[..Min(|all|, GANTT_MAX_ISSUES)] && n + 1 == Min(20, Requests(|all|))
    {
      assert Fetched(all, issues, n);
    }
  }

  lemma Proceed<T(!new)>(serve: (nat, nat) -> Response<T>, issues: seq<T>, n: nat)
    requires n < 20 && OnTrack(serve, issues, n)
    requires var res := serve(n, GANTT_PAGE_LIMIT * n);
             |res.issues| >= GANTT_PAGE_LIMIT && |issues + res.issues| < res.total
    ensures OnTrack(serve, issues + serve(n, GANTT_PAGE_LIMIT * n).issues, n + 1)
  {
    var res := serve(n, GANTT_PAGE_LIMIT * n);
    forall all | Serves(serve, all)
      ensures Fetched(all, issues + res.issues, n + 1)
    {
      assert Fetched(all, issues, n);
      NextPage(all, issues, n, res.issues);
    }
  }

  lemma Capped<T(!new)>(serve: (nat, nat) -> Response<T>, issues: seq<T>)
    requires OnTrack(serve, issues, 20)
    ensures Complete(serve, issues, 20)
  {
    forall all | Serves(serve, all)
      ensures issues == all[..Min(|all|, GANTT_MAX_ISSUES)] && 20 == Min(20, Requests(|all|))
    {
      assert Fetched(all, issues, 20);
    }
  }

  /** The server may answer each request as it likes, whatever total it reports: there are at most
      twenty requests, and their answers are returned in order. From a server with a fixed list
      the whole list comes back, up to the cap. */
  method FetchProjectGantt<T(!new)>(serve: (nat, nat) -> Response<T>) returns (issues: seq<T>, requests: nat)
    ensures 1 <= requests <= 20
    ensures issues == Answers(serve, requests)
    ensures Complete(serve, issues, requests)
  {
    hide OnTrack, Complete;
    issues, requests := [], 0;
    var offset := 0;
    assert OnTrack(serve, issues, 0) by { StartOnTrack(serve); }
    while offset < GANTT_MAX_ISSUES
      invariant 0 <= offset == GANTT_PAGE_LIMIT * requests && requests <= 20
      invariant issues == Answers(serve, requests)
      invariant OnTrack(serve, issues, requests)
      decreases GANTT_MAX_ISSUES - offset
    {
      var res := serve(requests, offset);
      ghost var before, n := issues, requests;
      issues, requests := issues + res.issues, requests + 1;
      if |res.issues| < GANTT_PAGE_LIMIT {
        Stop(serve, before, n);
        return;
      }
      if |issues| >= res.total {
        Stop(serve, before, n);
        return;
      }
      Proceed(serve, before, n);
      offset := offset + GANTT_PAGE_LIMIT;
    }
    Capped(serve, issues);
  }

  lemma StartOnTrack<T(!new)>(serve: (nat, nat) -> Response<T>)
    ensures OnTrack(serve, [], 0)
  {
  }

  // ---------------------------------------------------------------------------
  // Children of many parents
  // ---------------------------------------------------------------------------

  function Concat<T>(chunks: seq<seq<T>>): seq<T> {
    if chunks == [] then [] else Concat(chunks[..|chunks| - 1]) + chunks[|chunks| - 1]
  }

  /** The request is split so that no chunk exceeds the server's limit. */
  method Chunked(parentIds: seq<string>) returns (chunks: seq<seq<string>>)
    ensures Concat(chunks) == parentIds
    ensures forall k :: 0 <= k < |chunks| ==> 1 <= |chunks[k]| <= 200 && (k < |chunks| - 1 ==> |chunks[k]| == 200)
  {
    chunks := [];
    var i := 0;
    while i < |parentIds|
      invariant 0 <= i
      invariant Concat(chunks) == parentIds[..Min(i, |parentIds|)]
      invariant forall k :: 0 <= k < |chunks| ==> 1 <= |chunks[k]| <= 200
      invariant forall k :: 0 <= k < |chunks| ==> i <= |parentIds| || k < |chunks| - 1 ==> |chunks[k]| == 200
    {
      var end := Min(i + CHUNK_SIZE, |parentIds|);
      var chunk := parentIds[i..end];
      assert (chunks + [chunk])[..|chunks|] == chunks;
      assert parentIds[..i] + chunk == parentIds[..end];
      chunks := chunks + [chunk];
      i := i + CHUNK_SIZE;
    }
    assert parentIds[..|parentIds|] == parentIds;
  }

  /** The issues whose parent is p, in order. */
  function ChildrenOf(issues: seq<Issue>, p: string): seq<Issue> {
    if issues == [] then []
    else
      var last := issues[|issues| - 1];
      ChildrenOf(issues[..|issues| - 1], p) + if last.parentId == Some(p) then [last] else []
  }

  lemma {:induction false} ChildrenAppend(xs: seq<Issue>, ys: seq<Issue>, p: string)
    ensures ChildrenOf(xs + ys, p) == ChildrenOf(xs, p) + ChildrenOf(ys, p)
  {
    if ys == [] {
      assert xs + ys == xs;
    } else {
      var front, last := ys[..|ys| - 1], ys[|ys| - 1];
      assert (xs + ys)[..|xs + ys| - 1] == xs + front;
      ChildrenAppend(xs, front, p);
    }
  }

  /** The children of p are the issues with that parent, each as often as it was given. */
  lemma {:induction false} ChildrenAre(issues: seq<Issue>, p: string, i: Issue)
    ensures multiset(ChildrenOf(issues, p))[i] == if i.parentId == Some(p) then multiset(issues)[i] else 0
    ensures ChildrenOf([i], p) == if i.parentId == Some(p) then [i] else []
  {
    assert [i][..0] == [] && ChildrenOf([], p) == [];
    if issues != [] {
      var front, last := issues[..|issues| - 1], issues[|issues| - 1];
      ChildrenAre(front, p, i);
      assert issues == front + [last];
    }
  }

  /** Issues by parent; an issue without a parent, or with an empty one, is skipped. */
  ghost predicate GroupsOf(grouped: map<string, seq<Issue>>, issues: seq<Issue>) {
    && (forall p :: p in grouped <==> p != "" && ChildrenOf(issues, p) != [])
    && (forall p :: p in grouped ==> grouped[p] == ChildrenOf(issues, p))
  }

  method Group(responses: seq<seq<Issue>>) returns (grouped: map<string, seq<Issue>>)
    ensures GroupsOf(grouped, Concat(responses))
  {
    grouped := map[];
    for r := 0 to |responses|
      invariant GroupsOf(grouped, Concat(responses[..r]))
    {
      assert responses[..r + 1][..r] == responses[..r];
      ghost var before := Concat(responses[..r]);
      var issues := responses[r];
      assert before + issues[..0] == before;
      for k := 0 to |issues|
        invariant GroupsOf(grouped, before + issues[..k])
      {
        var issue := issues[k];
        assert before + issues[..k + 1] == before + issues[..k] + [issue];
        assert (before + issues[..k] + [issue])[..|before| + k] == before + issues[..k];
        if issue.parentId.Some? && issue.parentId.value != "" {
          var p := issue.parentId.value;
          grouped := grouped[p := (if p in grouped then grouped[p] else []) + [issue]];
        }
      }
      assert issues[..|issues|] == issues;
    }
    assert responses[..|responses|] == responses;
  }

  /** The server's answer to one chunk: the children of its parents, in table order. */
  function Select(table: seq<Issue>, parents: seq<string>): seq<Issue> {
    if table == [] then []
    else
      var last := table[|table| - 1];
      Select(table[..|table| - 1], parents) + if last.parentId.Some? && last.parentId.value in parents
          then [last] else []
  }

  function SelectAll(table: seq<Issue>, chunks: seq<seq<string>>): seq<seq<Issue>> {
    if chunks == [] then [] else SelectAll(table, chunks[..|chunks| - 1]) + [Select(table, chunks[|chunks| - 1])]
  }

  function ChunksWith(chunks: seq<seq<string>>, p: string): nat {
    if chunks == [] then 0
    else ChunksWith(chunks[..|chunks| - 1], p) + if p in chunks[|chunks| - 1] then 1 else 0
  }

  lemma {:induction false} ChildrenOfSelect(table: seq<Issue>, parents: seq<string>, p: string)
    ensures ChildrenOf(Select(table, parents), p) == if p in parents then ChildrenOf(table, p) else []
  {
    if table != [] {
      var front, last := table[..|table| - 1], table[|table| - 1];
      ChildrenOfSelect(front, parents, p);
      var one := if last.parentId.Some? && last.parentId.value in parents then [last] else [];
      ChildrenAppend(Select(front, parents), one, p);
      assert one != [] ==> one[..0] == [];
    }
  }

  lemma {:induction false} GroupSize(table: seq<Issue>, chunks: seq<seq<string>>, p: string)
    ensures |ChildrenOf(Concat(SelectAll(table, chunks)), p)| == ChunksWith(chunks, p) * |ChildrenOf(table, p)|
    ensures ChunksWith(chunks, p) == 1 ==> ChildrenOf(Concat(SelectAll(table, chunks)), p) == ChildrenOf(table, p)
  {
    hide ChildrenOf, Select;
    if chunks == [] {
      assert ChildrenOf([], p) == [] by { NoChildren(p); }
    } else {
      var front, chunk := chunks[..|chunks| - 1], chunks[|chunks| - 1];
      GroupSize(table, front, p);
      var answers := SelectAll(table, front);
      assert (answers + [Select(table, chunk)])[..|answers|] == answers;
      ChildrenAppend(Concat(answers), Select(table, chunk), p);
      ChildrenOfSelect(table, chunk, p);
      Distribute(ChunksWith(front, p), if p in chunk then 1 else 0, |ChildrenOf(table, p)|);
    }
  }

  lemma NoChildren(p: string)
    ensures ChildrenOf([], p) == []
  {
  }

  lemma Distribute(a: nat, b: nat, n: nat)
    ensures (a + b) * n == a * n + b * n
    ensures a == 0 ==> a * n == 0
    ensures b == 1 ==> b * n == n
  {
  }

  /** Splitting the request changes nothing for a parent exactly when it is in one chunk; a repeated
      id that falls into two chunks has its children listed twice. */
  lemma GroupIsDirectIff(table: seq<Issue>, chunks: seq<seq<string>>, p: string)
    requires ChildrenOf(table, p) != []
    ensures ChildrenOf(Concat(SelectAll(table, chunks)), p) == ChildrenOf(table, p) <==> ChunksWith(chunks, p) == 1
  {
    hide ChildrenOf, Concat, SelectAll, ChunksWith;
    GroupSize(table, chunks, p);
    TimesIff(ChunksWith(chunks, p), |ChildrenOf(table, p)|);
  }

  lemma TimesIff(k: nat, n: nat)
    requires n > 0
    ensures k * n == n <==> k == 1
  {
    if k > 1 {
      assert k * n == n + (k - 1) * n;
      assert (k - 1) * n > 0;
    }
  }

  lemma {:induction false} DistinctIsInOneChunk(chunks: seq<seq<string>>, p: string)
    requires Distinct(Concat(chunks))
    ensures ChunksWith(chunks, p) == if p in Concat(chunks) then 1 else 0
  {
    if chunks != [] {
      var front, chunk := chunks[..|chunks| - 1], chunks[|chunks| - 1];
      var before := Concat(front);
      assert Concat(chunks) == before + chunk;
      assert forall k :: 0 <= k < |before| ==> (before + chunk)[k] == before[k];
      DistinctIsInOneChunk(front, p);
      hide Concat, ChunksWith;
      if p in before && p in chunk {
        Meet(before, chunk, p);
      }
    }
  }

  lemma Meet(xs: seq<string>, ys: seq<string>, p: string)
    requires p in xs && p in ys
    ensures !Distinct(xs + ys)
  {
    var i :| 0 <= i < |xs| && xs[i] == p;
    var j :| 0 <= j < |ys| && ys[j] == p;
    assert (xs + ys)[i] == (xs + ys)[|xs| + j];
  }

  /** Writes each group to its parent's children cache unless that cache already shows something. */
  method Hydrate(qc: QueryClient, ws: string, grouped: map<string, seq<Issue>>)
    modifies qc
    ensures forall p :: p in grouped ==> Hydrated(old(qc.cache), qc.cache, ChildrenKey(ws, p), grouped[p])
    ensures forall k :: Foreign(ws, grouped.Keys, k) ==> Same(old(qc.cache), qc.cache, k)
  {
    var rest := grouped.Keys;
    while rest != {}
      invariant rest <= grouped.Keys
      invariant forall p :: p in grouped && p !in rest ==>
          Hydrated(old(qc.cache), qc.cache, ChildrenKey(ws, p), grouped[p])
      invariant forall p :: p in rest ==> Same(old(qc.cache), qc.cache, ChildrenKey(ws, p))
      invariant forall k :: Foreign(ws, grouped.Keys, k) ==> Same(old(qc.cache), qc.cache, k)
      decreases |rest|
    {
      var p :| p in rest;
      var existing := qc.GetQueryData(ChildrenKey(ws, p));
      ghost var before := qc.cache;
      if existing.None? || existing.value == IssueList([]) {
        qc.SetQueryData(ChildrenKey(ws, p), Some(IssueList(grouped[p])));
      }
      forall q | q != p
        ensures Same(before, qc.cache, ChildrenKey(ws, q))
      {
        ChildrenKeysDiffer(ws, p, q);
      }
      forall k | Foreign(ws, grouped.Keys, k)
        ensures Same(before, qc.cache, k)
      {
        assert ChildrenKey(ws, p) != k;
      }
      rest := rest - {p};
    }
  }

  lemma ChildrenKeysDiffer(ws: string, p: string, q: string)
    requires p != q
    ensures ChildrenKey(ws, p) != ChildrenKey(ws, q)
  {
    assert ChildrenKey(ws, p)[3] == Str(p) && ChildrenKey(ws, q)[3] == Str(q);
  }

  /** Not the children key of any of these parents. */
  ghost predicate Foreign(ws: string, parents: set<string>, k: Key) {
    forall p :: p in parents ==> ChildrenKey(ws, p) != k
  }

  ghost predicate Same(before: Store, after: Store, k: Key) {
    (k in after <==> k in before) && (k in before ==> after[k] == before[k])
  }

  /** An empty or missing list is filled; anything else stays as it was. */
  ghost predicate Hydrated(before: Store, after: Store, k: Key, children: seq<Issue>) {
    if k in before && before[k] != IssueList([]) then Same(before, after, k)
    else k in after && after[k] == IssueList(children)
  }

  /** For each requested parent exactly its children, however the request was split. */
  ghost predicate DirectGroups(grouped: map<string, seq<Issue>>, table: seq<Issue>, parentIds: seq<string>) {
    && (forall p :: p in grouped <==> p in parentIds && p != "" && ChildrenOf(table, p) != [])
    && (forall p :: p in grouped ==> grouped[p] == ChildrenOf(table, p))
  }

  ghost predicate FetchesFrom(fetch: seq<string> -> seq<Issue>, table: seq<Issue>) {
    forall parents :: fetch(parents) == Select(table, parents)
  }

  lemma GroupsAreDirect(grouped: map<string, seq<Issue>>, table: seq<Issue>, chunks: seq<seq<string>>)
    requires GroupsOf(grouped, Concat(SelectAll(table, chunks))) && Distinct(Concat(chunks))
    ensures DirectGroups(grouped, table, Concat(chunks))
  {
    hide ChildrenOf, Concat, SelectAll, ChunksWith;
    forall p
      ensures ChildrenOf(Concat(SelectAll(table, chunks)), p)
           == if p in Concat(chunks) then ChildrenOf(table, p) else []
    {
      DistinctIsInOneChunk(chunks, p);
      GroupSize(table, chunks, p);
    }
  }

  lemma {:induction false} AnswersAreSelections(fetch: seq<string> -> seq<Issue>, table: seq<Issue>,
      chunks: seq<seq<string>>, answers: seq<seq<Issue>>)
    requires FetchesFrom(fetch, table) && |answers| == |chunks|
    requires forall k :: 0 <= k < |chunks| ==> answers[k] == fetch(chunks[k])
    ensures answers == SelectAll(table, chunks)
  {
    if chunks != [] {
      var n := |chunks| - 1;
      AnswersAreSelections(fetch, table, chunks[..n], answers[..n]);
      assert answers == answers[..n] + [answers[n]];
    }
  }

  /** The whole request: split, fetch, group, hydrate. */
  method FetchAndHydrateChildrenByParents(
    qc: QueryClient, ws: string, parentIds: seq<string>, fetch: seq<string> -> seq<Issue>)
    returns (grouped: map<string, seq<Issue>>)
    modifies qc
    ensures Distinct(parentIds) ==> forall table :: FetchesFrom(fetch, table) ==>
        DirectGroups(grouped, table, parentIds)
    ensures forall p :: p in grouped ==> Hydrated(old(qc.cache), qc.cache, ChildrenKey(ws, p), grouped[p])
    ensures forall k :: Foreign(ws, grouped.Keys, k) ==> Same(old(qc.cache), qc.cache, k)
  {
    var chunks := Chunked(parentIds);
    var responses: seq<seq<Issue>> := [];
    for k := 0 to |chunks|
      invariant |responses| == k
      invariant forall j :: 0 <= j < k ==> responses[j] == fetch(chunks[j])
    {
      responses := responses + [fetch(chunks[k])];
    }
    grouped := Group(responses);
    forall table | Distinct(parentIds) && FetchesFrom(fetch, table)
      ensures DirectGroups(grouped, table, parentIds)
    {
      AnswersAreSelections(fetch, table, chunks, responses);
      GroupsAreDirect(grouped, table, chunks);
    }
    Hydrate(qc, ws, grouped);
  }
}
