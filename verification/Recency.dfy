/** Bounded recency lists: move to front, keep the first `cap`
    (apps/mobile/data/viewed-issues-store.ts; the buckets of packages/core/chat/recent-context-store.ts). */
module Recency {
  import opened Sequences

  function Take<K>(xs: seq<K>, n: nat): seq<K> {
    if |xs| <= n then xs else xs[..n]
  }

  /** `[k, ...xs.filter(x => x !== k)].slice(0, cap)` */
  function Promote<K(==)>(xs: seq<K>, k: K, cap: nat): seq<K> {
    Take([k] + Without(xs, k), cap)
  }

  function PromoteAll<K(==)>(history: seq<K>, cap: nat): seq<K> {
    if history == [] then [] else Promote(PromoteAll(history[..|history| - 1], cap), history[|history| - 1], cap)
  }

  function Reversed<K>(xs: seq<K>): seq<K> {
    if xs == [] then [] else [xs[|xs| - 1]] + Reversed(xs[..|xs| - 1])
  }

  /** Each element at its first place only. */
  function FirstDistinct<K(==)>(xs: seq<K>): seq<K> {
    if xs == [] then [] else [xs[0]] + Without(FirstDistinct(xs[1..]), xs[0])
  }

  /** The distinct elements of a history, latest first. */
  function Recent<K(==)>(history: seq<K>): seq<K> {
    FirstDistinct(Reversed(history))
  }

  lemma {:induction false} FirstDistinctFacts<K>(xs: seq<K>)
    ensures Distinct(FirstDistinct(xs))
    ensures forall x :: x in FirstDistinct(xs) <==> x in xs
  {
    if xs != [] {
      assert xs == [xs[0]] + xs[1..];
      FirstDistinctFacts(xs[1..]);
      WithoutFacts(FirstDistinct(xs[1..]), xs[0]);
    }
  }

  lemma RecentSnoc<K>(history: seq<K>, k: K)
    ensures Recent(history + [k]) == [k] + Without(Recent(history), k)
  {
    var h := history + [k];
    assert h[..|h| - 1] == history;
    assert Reversed(h) == [k] + Reversed(history);
    assert Reversed(h)[1..] == Reversed(history);
  }

  lemma {:induction false} WithoutTake<K>(xs: seq<K>, k: K, n: nat)
    requires Distinct(xs) && n > 0
    ensures Take(Without(Take(xs, n), k), n - 1) == Take(Without(xs, k), n - 1)
    decreases |xs|
  {
    if |xs| > n {
      assert Take(xs, n) == [xs[0]] + xs[1..n];
      assert xs[1..n] == xs[1..][..n - 1];
      assert Take(xs, n)[1..] == xs[1..n];
      if xs[0] == k {
        WithoutFacts(xs[1..], k);
        WithoutFacts(xs[1..n], k);
        assert Without(Take(xs, n), k) == xs[1..n];
        assert Without(xs, k) == xs[1..];
      } else if n > 1 {
        WithoutTake(xs[1..], k, n - 1);
        TakeCons(xs[0], Without(xs[1..n], k), n - 1);
        TakeCons(xs[0], Without(xs[1..], k), n - 1);
      }
    }
  }

  lemma TakeCons<K>(x: K, xs: seq<K>, n: nat)
    requires n > 0
    ensures Take([x] + xs, n) == [x] + Take(xs, n - 1)
  {
  }

  /** Truncating early loses nothing: a bounded list is the front of the unbounded one. */
  lemma {:induction false} BoundedRefinesUnbounded<K>(history: seq<K>, cap: nat)
    requires cap > 0
    ensures PromoteAll(history, cap) == Take(Recent(history), cap)
  {
    hide Recent;
    if history == [] {
      assert Recent<K>([]) == [] by { RecentEmpty<K>(); }
    } else {
      var front, k := history[..|history| - 1], history[|history| - 1];
      assert history == front + [k];
      BoundedRefinesUnbounded(front, cap);
      RecentSnoc(front, k);
      RecentDistinct(front);
      var r := Recent(front);
      WithoutTake(r, k, cap);
      TakeCons(k, Without(Take(r, cap), k), cap);
      TakeCons(k, Without(r, k), cap);
    }
  }

  lemma RecentEmpty<K>()
    ensures Recent<K>([]) == []
  {
  }

  lemma RecentDistinct<K>(history: seq<K>)
    ensures Distinct(Recent(history))
  {
    FirstDistinctFacts(Reversed(history));
  }

  // ---------------------------------------------------------------------------
  // Viewed issues
  // ---------------------------------------------------------------------------

  const CAPACITY: nat := 10

  class ViewedIssues {
    var byWorkspace: map<string, seq<string>>

    constructor ()
      ensures byWorkspace == map[]
    {
      byWorkspace := map[];
    }

    function Viewed(ws: string): seq<string>
      reads this
    {
      if ws in byWorkspace then byWorkspace[ws] else []
    }

    method Push(ws: string, id: string)
      modifies this
      ensures byWorkspace == old(byWorkspace)[ws := Promote(old(Viewed(ws)), id, CAPACITY)]
    {
      var prev := Viewed(ws);
      var next := [id] + Without(prev, id);
      byWorkspace := byWorkspace[ws := if |next| > CAPACITY then next[..CAPACITY] else next];
    }

    method Remove(ws: string, id: string)
      modifies this
      ensures byWorkspace == if ws in old(byWorkspace)
          then old(byWorkspace)[ws := Without(old(byWorkspace)[ws], id)] else old(byWorkspace)
    {
      if ws in byWorkspace {
        byWorkspace := byWorkspace[ws := Without(byWorkspace[ws], id)];
      }
    }
  }

  /** After any history of views the list is its last ten distinct issues, latest first. */
  lemma ViewedIssuesAreRecent(history: seq<string>)
    ensures PromoteAll(history, CAPACITY) == Take(Recent(history), CAPACITY)
    ensures |PromoteAll(history, CAPACITY)| <= 10 && Distinct(PromoteAll(history, CAPACITY))
  {
    hide Recent;
    BoundedRefinesUnbounded(history, CAPACITY);
    RecentDistinct(history);
  }
}
