/** The two-level recency store behind the chat context picker
    (packages/core/chat/recent-context-store.ts): at most fifty workspaces, each with at most
    twenty contexts, the latest first. */
module RecentContext {
  import opened Recency
  import opened Sequences

  const MAX_RECENT_CONTEXTS: nat := 20
  const MAX_WORKSPACES: nat := 50

  datatype Kind = Issue | Project

  /** The optional display fields are carried along unread. */
  datatype Context = Context(kind: Kind, id: string, details: map<string, string>, visitedAt: nat)

  function EntryKey(kind: Kind, id: string): string {
    (if kind == Issue then "issue:" else "project:") + id
  }

  lemma EntryKeyInjective(k1: Kind, id1: string, k2: Kind, id2: string)
    ensures EntryKey(k1, id1) == EntryKey(k2, id2) <==> k1 == k2 && id1 == id2
  {
    assert EntryKey(Issue, id1)[0] == 'i' && EntryKey(Project, id1)[0] == 'p';
    if EntryKey(k1, id1) == EntryKey(k2, id2) {
      var a, b := EntryKey(k1, id1), EntryKey(k2, id2);
      assert a[0] == b[0];
      var n := if k1 == Issue then 6 else 8;
      assert a[n..] == id1 && b[n..] == id2;
    }
  }

  function KeyOf(c: Context): string {
    EntryKey(c.kind, c.id)
  }

  function Keys(bucket: seq<Context>): (r: seq<string>)
    ensures |r| == |bucket|
    ensures forall i :: 0 <= i < |r| ==> r[i] == KeyOf(bucket[i])
  {
    seq(|bucket|, i requires 0 <= i < |bucket| => KeyOf(bucket[i]))
  }

  function DropKey(bucket: seq<Context>, key: string): seq<Context> {
    if bucket == [] then []
    else (if KeyOf(bucket[0]) == key then [] else [bucket[0]]) + DropKey(bucket[1..], key)
  }

  lemma {:induction false} KeysOfDrop(bucket: seq<Context>, key: string)
    ensures Keys(DropKey(bucket, key)) == Without(Keys(bucket), key)
  {
    if bucket != [] {
      KeysOfDrop(bucket[1..], key);
      assert Keys(bucket)[1..] == Keys(bucket[1..]);
      var head := if KeyOf(bucket[0]) == key then [] else [bucket[0]];
      assert Keys(head + DropKey(bucket[1..], key)) == Keys(head) + Keys(DropKey(bucket[1..], key));
    }
  }

  lemma {:induction false} DropKeyWithin(bucket: seq<Context>, key: string)
    ensures |DropKey(bucket, key)| <= |bucket|
    ensures forall c :: c in DropKey(bucket, key) ==> c in bucket
  {
    if bucket != [] {
      DropKeyWithin(bucket[1..], key);
    }
  }

  // ---------------------------------------------------------------------------
  // The store as a value
  // ---------------------------------------------------------------------------

  /** `order` is the order of `Object.keys(byWorkspace)`: the order of insertion. */
  datatype State = State(order: seq<string>, buckets: map<string, seq<Context>>)

  const EMPTY := State([], map[])

  function Bucket(s: State, ws: string): seq<Context> {
    if ws in s.buckets then s.buckets[ws] else []
  }

  /** `byWorkspace[ws]?.[0]?.visitedAt ?? 0` */
  function Head(s: State, ws: string): nat {
    if Bucket(s, ws) != [] then Bucket(s, ws)[0].visitedAt else 0
  }

  function Put(s: State, ws: string, bucket: seq<Context>): State {
    State(if ws in s.buckets then s.order else s.order + [ws], s.buckets[ws := bucket])
  }

  function Drop(s: State, ws: string): State {
    State(Without(s.order, ws), s.buckets - {ws})
  }

  /** The workspace a left-to-right search for a smaller head ends with. */
  function Oldest(s: State, ids: seq<string>): string
    requires ids != []
  {
    if |ids| == 1 then ids[0]
    else
      var best, last := Oldest(s, ids[..|ids| - 1]), ids[|ids| - 1];
      if Head(s, last) < Head(s, best) then last else best
  }

  function Refreshed(bucket: seq<Context>, c: Context): seq<Context> {
    Take([c] + DropKey(bucket, KeyOf(c)), MAX_RECENT_CONTEXTS)
  }

  function Visited(s: State, ws: string, c: Context): State {
    var next := Put(s, ws, Refreshed(Bucket(s, ws), c));
    if |next.order| > MAX_WORKSPACES then Drop(next, Oldest(next, next.order)) else next
  }

  function Forgotten(s: State, ws: string, kind: Kind, id: string): State {
    var rest := DropKey(Bucket(s, ws), EntryKey(kind, id));
    if |rest| == |Bucket(s, ws)| then s
    else if rest == [] then Drop(s, ws)
    else Put(s, ws, rest)
  }

  function Pruned(s: State, active: set<string>): State {
    State(Among(s.order, active), map ws | ws in s.buckets && ws in active :: s.buckets[ws])
  }

  function Among(ids: seq<string>, active: set<string>): seq<string> {
    if ids == [] then [] else (if ids[0] in active then [ids[0]] else []) + Among(ids[1..], active)
  }

  // ---------------------------------------------------------------------------
  // The store as an object
  // ---------------------------------------------------------------------------

  class RecentContexts {
    var order: seq<string>
    var byWorkspace: map<string, seq<Context>>

    function Value(): State
      reads this
    {
      State(order, byWorkspace)
    }

    /** The ids in order are the keys of the map, each once. */
    ghost predicate Valid()
      reads this
    {
      WellFormed(Value())
    }

    constructor ()
      ensures Valid() && Value() == EMPTY
    {
      order, byWorkspace := [], map[];
    }

    method RecordVisit(ws: string, kind: Kind, id: string, details: map<string, string>, now: nat)
      requires Valid()
      modifies this
      ensures Valid()
      ensures Value() == Visited(old(Value()), ws, Context(kind, id, details, now))
    {
      StaysWellFormed(Value(), Visit(ws, Context(kind, id, details, now)));
      var bucket := if ws in byWorkspace then byWorkspace[ws] else [];
      var updated := Context(kind, id, details, now);
      var nextBucket := [updated] + DropKey(bucket, EntryKey(kind, id));
      if |nextBucket| > MAX_RECENT_CONTEXTS {
        nextBucket := nextBucket[..MAX_RECENT_CONTEXTS];
      }
      var next := Put(Value(), ws, nextBucket);
      if |next.order| > MAX_WORKSPACES {
        var oldest := FindOldest(next);
        next := Drop(next, oldest);
      }
      order, byWorkspace := next.order, next.buckets;
    }

    method ForgetContext(ws: string, kind: Kind, id: string)
      requires Valid()
      modifies this
      ensures Valid()
      ensures Value() == Forgotten(old(Value()), ws, kind, id)
    {
      StaysWellFormed(Value(), Forget(ws, kind, id));
      if ws !in byWorkspace {
        return;
      }
      var bucket := byWorkspace[ws];
      var nextBucket := DropKey(bucket, EntryKey(kind, id));
      if |nextBucket| == |bucket| {
        return;
      }
      if |nextBucket| == 0 {
        order, byWorkspace := Without(order, ws), byWorkspace - {ws};
        return;
      }
      byWorkspace := byWorkspace[ws := nextBucket];
    }

    method PruneWorkspaces(active: set<string>)
      requires Valid()
      modifies this
      ensures Valid()
      ensures Value() == Pruned(old(Value()), active)
    {
      StaysWellFormed(Value(), Prune(active));
      var changed, nextOrder, next := Keep(order, byWorkspace, active);
      if changed {
        order, byWorkspace := nextOrder, next;
      } else {
        AmongAll(order, active);
      }
    }
  }

  /** The entries of the active workspaces, and whether any entry was left behind. */
  method Keep(order: seq<string>, byWorkspace: map<string, seq<Context>>, active: set<string>)
    returns (changed: bool, nextOrder: seq<string>, next: map<string, seq<Context>>)
    requires forall ws :: ws in order <==> ws in byWorkspace
    ensures changed <==> exists k :: 0 <= k < |order| && order[k] !in active
    ensures State(nextOrder, next) == Pruned(State(order, byWorkspace), active)
  {
    changed, nextOrder, next := false, [], map[];
    for i := 0 to |order|
      invariant nextOrder == Among(order[..i], active)
      invariant changed <==> exists k :: 0 <= k < i && order[k] !in active
      invariant next == map ws | ws in byWorkspace && ws in order[..i] && ws in active :: byWorkspace[ws]
    {
      assert order[..i + 1] == order[..i] + [order[i]];
      AmongSnoc(order[..i], order[i], active);
      assert order[i] in order;
      if order[i] in active {
        nextOrder, next := nextOrder + [order[i]], next[order[i] := byWorkspace[order[i]]];
      } else {
        changed := true;
      }
    }
    assert order[..|order|] == order;
  }

  /** The `reduce` over the workspace ids: a candidate wins only with a strictly smaller head. */
  method FindOldest(s: State) returns (oldest: string)
    requires s.order != []
    ensures oldest == Oldest(s, s.order)
  {
    oldest := s.order[0];
    for i := 1 to |s.order|
      invariant oldest == Oldest(s, s.order[..i])
    {
      assert s.order[..i + 1][..i] == s.order[..i];
      if Head(s, s.order[i]) < Head(s, oldest) {
        oldest := s.order[i];
      }
    }
    assert s.order[..|s.order|] == s.order;
  }

  lemma {:induction false} AmongSnoc(ids: seq<string>, id: string, active: set<string>)
    ensures Among(ids + [id], active) == Among(ids, active) + if id in active then [id] else []
  {
    if ids == [] {
      assert ids + [id] == [id];
    } else {
      assert (ids + [id])[1..] == ids[1..] + [id];
      AmongSnoc(ids[1..], id, active);
    }
  }

  lemma {:induction false} AmongAll(ids: seq<string>, active: set<string>)
    requires forall k :: 0 <= k < |ids| ==> ids[k] in active
    ensures Among(ids, active) == ids
  {
    if ids != [] {
      AmongAll(ids[1..], active);
    }
  }

  lemma {:induction false} AmongFacts(ids: seq<string>, active: set<string>)
    requires Distinct(ids)
    ensures Distinct(Among(ids, active))
    ensures forall ws :: ws in Among(ids, active) <==> ws in ids && ws in active
    ensures |Among(ids, active)| <= |ids|
  {
    if ids != [] {
      assert ids == [ids[0]] + ids[1..];
      AmongFacts(ids[1..], active);
      assert ids[0] !in ids[1..];
    }
  }

  /** Position i holds a least head, and every earlier head is larger. */
  ghost predicate FirstLeast(s: State, ids: seq<string>, i: nat) {
    && i < |ids|
    && (forall j :: 0 <= j < |ids| ==> Head(s, ids[i]) <= Head(s, ids[j]))
    && (forall j :: 0 <= j < i ==> Head(s, ids[i]) < Head(s, ids[j]))
  }

  /** What the search finds: a least-recent workspace, and of several the first inserted. */
  lemma {:induction false} OldestIsFirstLeast(s: State, ids: seq<string>) returns (i: nat)
    requires ids != []
    ensures FirstLeast(s, ids, i) && ids[i] == Oldest(s, ids)
  {
    hide Head;
    if |ids| == 1 {
      i := 0;
    } else {
      var n := |ids| - 1;
      i := OldestIsFirstLeast(s, ids[..n]);
      assert forall j :: 0 <= j < n ==> ids[j] == ids[..n][j];
      if Head(s, ids[n]) < Head(s, ids[i]) {
        i := n;
      }
    }
  }

  // ---------------------------------------------------------------------------
  // Eviction
  // ---------------------------------------------------------------------------

  ghost predicate WellFormed(s: State) {
    && Distinct(s.order)
    && (forall ws :: ws in s.order <==> ws in s.buckets)
  }

  lemma PutFacts(s: State, ws: string, bucket: seq<Context>)
    requires WellFormed(s)
    ensures WellFormed(Put(s, ws, bucket))
    ensures ws in Put(s, ws, bucket).order
    ensures forall w :: w in Put(s, ws, bucket).order <==> w == ws || w in s.order
    ensures forall w :: w != ws ==> Bucket(Put(s, ws, bucket), w) == Bucket(s, w)
    ensures Bucket(Put(s, ws, bucket), ws) == bucket
    ensures |Put(s, ws, bucket).order| == |s.order| + if ws in s.buckets then 0 else 1
  {
    var next := Put(s, ws, bucket);
    if ws !in s.buckets {
      assert next.order == s.order + [ws];
      assert next.order[|s.order|] == ws;
      assert forall w :: w in s.order ==> w in next.order;
    }
  }

  lemma DropFacts(s: State, ws: string)
    requires WellFormed(s) && ws in s.order
    ensures WellFormed(Drop(s, ws))
    ensures |Drop(s, ws).order| == |s.order| - 1
    ensures forall w :: w in Drop(s, ws).order <==> w != ws && w in s.order
    ensures forall w :: w != ws ==> Bucket(Drop(s, ws), w) == Bucket(s, w)
  {
    WithoutFacts(s.order, ws);
  }

  lemma PrunedFacts(s: State, active: set<string>)
    requires WellFormed(s)
    ensures WellFormed(Pruned(s, active))
    ensures |Pruned(s, active).order| <= |s.order|
    ensures forall ws :: ws in Pruned(s, active).order <==> ws in s.order && ws in active
    ensures forall ws :: ws in active ==> Bucket(Pruned(s, active), ws) == Bucket(s, ws)
  {
    AmongFacts(s.order, active);
  }

  /** No operation breaks the store's shape. */
  lemma StaysWellFormed(s: State, e: Event)
    requires WellFormed(s)
    ensures WellFormed(After(s, e))
  {
    hide WellFormed, Put, Drop, Pruned, Refreshed;
    match e
    case Visit(ws, c) =>
      PutFacts(s, ws, Refreshed(Bucket(s, ws), c));
      var next := Put(s, ws, Refreshed(Bucket(s, ws), c));
      if |next.order| > MAX_WORKSPACES {
        var i := OldestIsFirstLeast(next, next.order);
        DropFacts(next, next.order[i]);
      }
    case Forget(ws, kind, id) =>
      PutFacts(s, ws, DropKey(Bucket(s, ws), EntryKey(kind, id)));
      if ws in s.order {
        DropFacts(s, ws);
      } else {
        NothingToForget(s, ws, kind, id);
      }
    case Prune(active) => PrunedFacts(s, active);
  }

  lemma NothingToForget(s: State, ws: string, kind: Kind, id: string)
    requires WellFormed(s) && ws !in s.order
    ensures Forgotten(s, ws, kind, id) == s
  {
  }

  /** A visit makes its own workspace the victim exactly when the store was full, the workspace
      was new, and the clock reads less than every head: only a clock set back can do that. */
  lemma JustVisitedEvictedIff(s: State, ws: string, c: Context)
    requires WellFormed(s) && |s.order| <= 50
    ensures ws !in Visited(s, ws, c).order
       <==> |s.order| == 50 && ws !in s.order && forall w :: w in s.order ==> c.visitedAt < Head(s, w)
  {
    var b := Refreshed(Bucket(s, ws), c);
    var next := Put(s, ws, b);
    PutFacts(s, ws, b);
    if |next.order| > MAX_WORKSPACES {
      var i := OldestIsFirstLeast(next, next.order);
      DropFacts(next, next.order[i]);
      EvictedIsNewIff(s, ws, c, i);
    }
  }

  /** In any state, whatever was forgotten or pruned before: a visit drops at most one other workspace, only to make
      room for a new one, and none that is kept has an older newest context. */
  lemma EvictionTakesLeastRecent(s: State, ws: string, c: Context, gone: string)
    requires WellFormed(s) && |s.order| <= 50
    requires gone in s.order && gone !in Visited(s, ws, c).order
    ensures |s.order| == 50 && ws !in s.order
    ensures forall w :: w in s.order && w != gone ==> w in Visited(s, ws, c).order
    ensures forall w :: w in Visited(s, ws, c).order ==> Head(s, gone) <= Head(Visited(s, ws, c), w)
  {
    var b := Refreshed(Bucket(s, ws), c);
    var next := Put(s, ws, b);
    hide Refreshed, Head;
    PutFacts(s, ws, b);
    if |next.order| > MAX_WORKSPACES {
      var i := OldestIsFirstLeast(next, next.order);
      DropFacts(next, next.order[i]);
      hide Put, Drop;
      assert gone == next.order[i];
      HeadOfBucket(s, next, gone);
      forall w | w in Visited(s, ws, c).order
        ensures Head(s, gone) <= Head(Visited(s, ws, c), w)
      {
        HeadOfBucket(next, Drop(next, gone), w);
        var j :| 0 <= j < |next.order| && next.order[j] == w;
      }
    }
  }

  lemma HeadOfBucket(s: State, t: State, ws: string)
    requires Bucket(s, ws) == Bucket(t, ws)
    ensures Head(s, ws) == Head(t, ws)
  {
  }

  lemma EvictedIsNewIff(s: State, ws: string, c: Context, i: nat)
    requires WellFormed(s) && ws !in s.order && s.order != []
    requires FirstLeast(Put(s, ws, Refreshed(Bucket(s, ws), c)), s.order + [ws], i)
    ensures (s.order + [ws])[i] == ws <==> forall w :: w in s.order ==> c.visitedAt < Head(s, w)
  {
    var next := Put(s, ws, Refreshed(Bucket(s, ws), c));
    var n := |s.order|;
    assert (s.order + [ws])[n] == ws;
    assert Head(next, ws) == c.visitedAt;
    assert forall j :: 0 <= j < n ==>
        (s.order + [ws])[j] == s.order[j] && Head(next, s.order[j]) == Head(s, s.order[j]);
  }

  // ---------------------------------------------------------------------------
  // Every run keeps every bucket in shape
  // ---------------------------------------------------------------------------

  ghost predicate NewestFirst(bucket: seq<Context>) {
    forall i, j :: 0 <= i < j < |bucket| ==> bucket[i].visitedAt >= bucket[j].visitedAt
  }

  ghost predicate NotAfter(bucket: seq<Context>, now: nat) {
    forall c :: c in bucket ==> c.visitedAt <= now
  }

  ghost predicate Tidy(bucket: seq<Context>, now: nat) {
    && |bucket| <= MAX_RECENT_CONTEXTS
    && Distinct(Keys(bucket))
    && NewestFirst(bucket)
    && NotAfter(bucket, now)
  }

  ghost predicate Bounded(s: State, now: nat) {
    && WellFormed(s)
    && |s.order| <= MAX_WORKSPACES
    && (forall ws :: ws in s.order ==> Bucket(s, ws) != [] && Tidy(Bucket(s, ws), now))
  }

  lemma {:induction false} DropKeyNewestFirst(bucket: seq<Context>, key: string)
    requires NewestFirst(bucket)
    ensures NewestFirst(DropKey(bucket, key))
  {
    if bucket != [] {
      DropKeyNewestFirst(bucket[1..], key);
      DropKeyWithin(bucket[1..], key);
      if KeyOf(bucket[0]) != key {
        var rest := DropKey(bucket[1..], key);
        assert DropKey(bucket, key) == [bucket[0]] + rest;
        forall j | 0 <= j < |rest|
          ensures bucket[0].visitedAt >= rest[j].visitedAt
        {
          assert rest[j] in bucket[1..];
        }
      }
    }
  }

  lemma DropKeyTidy(bucket: seq<Context>, key: string, now: nat)
    requires Tidy(bucket, now)
    ensures Tidy(DropKey(bucket, key), now)
  {
    DropKeyNewestFirst(bucket, key);
    DropKeyWithin(bucket, key);
    KeysOfDrop(bucket, key);
    WithoutFacts(Keys(bucket), key);
  }

  /** The keys of a refreshed bucket are the promoted keys of the bucket before. */
  lemma KeysOfRefreshed(bucket: seq<Context>, c: Context)
    ensures Keys(Refreshed(bucket, c)) == Promote(Keys(bucket), KeyOf(c), MAX_RECENT_CONTEXTS)
  {
    KeysOfDrop(bucket, KeyOf(c));
    var all := [c] + DropKey(bucket, KeyOf(c));
    assert Keys(all) == [KeyOf(c)] + Without(Keys(bucket), KeyOf(c));
  }

  lemma RefreshedTidy(bucket: seq<Context>, c: Context, now: nat)
    requires Tidy(bucket, now) && now <= c.visitedAt
    ensures Refreshed(bucket, c) != [] && Refreshed(bucket, c)[0] == c
    ensures Tidy(Refreshed(bucket, c), c.visitedAt)
  {
    var rest := DropKey(bucket, KeyOf(c));
    DropKeyTidy(bucket, KeyOf(c), now);
    KeysOfRefreshed(bucket, c);
    WithoutFacts(Keys(bucket), KeyOf(c));
    assert Distinct([KeyOf(c)] + Without(Keys(bucket), KeyOf(c)));
    assert NewestFirst([c] + rest) by {
      assert forall j :: 0 <= j < |rest| ==> rest[j] in rest;
    }
  }

  datatype Event =
    | Visit(ws: string, context: Context)
    | Forget(ws: string, kind: Kind, id: string)
    | Prune(active: set<string>)

  function After(s: State, e: Event): State {
    match e
    case Visit(ws, c) => Visited(s, ws, c)
    case Forget(ws, kind, id) => Forgotten(s, ws, kind, id)
    case Prune(active) => Pruned(s, active)
  }

  function Run(events: seq<Event>): State {
    if events == [] then EMPTY else After(Run(events[..|events| - 1]), events[|events| - 1])
  }

  /** The time of the last visit. */
  function Clock(events: seq<Event>): nat {
    if events == [] then 0
    else if events[|events| - 1].Visit? then events[|events| - 1].context.visitedAt
    else Clock(events[..|events| - 1])
  }

  ghost predicate NonDecreasing(events: seq<Event>) {
    events != [] ==>
      && NonDecreasing(events[..|events| - 1])
      && (events[|events| - 1].Visit? ==> Clock(events[..|events| - 1]) <= events[|events| - 1].context.visitedAt)
  }

  lemma LaterTidy(bucket: seq<Context>, now: nat, later: nat)
    requires Tidy(bucket, now) && now <= later
    ensures Tidy(bucket, later)
  {
  }

  lemma PutBounded(s: State, ws: string, bucket: seq<Context>, now: nat, later: nat)
    requires Bounded(s, now) && now <= later && bucket != [] && Tidy(bucket, later)
    ensures WellFormed(Put(s, ws, bucket))
    ensures forall w :: w in Put(s, ws, bucket).order ==>
        Bucket(Put(s, ws, bucket), w) != [] && Tidy(Bucket(Put(s, ws, bucket), w), later)
  {
    hide Put, Bucket, Tidy;
    PutFacts(s, ws, bucket);
    forall w | w in Put(s, ws, bucket).order
      ensures Bucket(Put(s, ws, bucket), w) != [] && Tidy(Bucket(Put(s, ws, bucket), w), later)
    {
      if w != ws {
        LaterTidy(Bucket(s, w), now, later);
      }
    }
  }

  lemma VisitBounded(s: State, ws: string, c: Context, now: nat)
    requires Bounded(s, now) && now <= c.visitedAt
    ensures Bounded(Visited(s, ws, c), c.visitedAt)
  {
    hide Tidy, Refreshed, Head;
    assert Tidy(Bucket(s, ws), now) by { EmptyTidy(now); }
    var b := Refreshed(Bucket(s, ws), c);
    RefreshedTidy(Bucket(s, ws), c, now);
    PutBounded(s, ws, b, now, c.visitedAt);
    PutFacts(s, ws, b);
    var next := Put(s, ws, b);
    if |next.order| > MAX_WORKSPACES {
      hide Put, Bucket;
      var i := OldestIsFirstLeast(next, next.order);
      DropFacts(next, next.order[i]);
    }
  }

  lemma EmptyTidy(now: nat)
    ensures Tidy([], now)
  {
  }

  lemma ForgetBounded(s: State, ws: string, kind: Kind, id: string, now: nat)
    requires Bounded(s, now)
    ensures Bounded(Forgotten(s, ws, kind, id), now)
  {
    hide Tidy, Put, Drop;
    var key := EntryKey(kind, id);
    var rest := DropKey(Bucket(s, ws), key);
    if ws in s.order {
      DropKeyTidy(Bucket(s, ws), key, now);
      DropFacts(s, ws);
      if rest != [] {
        PutBounded(s, ws, rest, now, now);
        PutFacts(s, ws, rest);
      }
    }
  }

  lemma PruneBounded(s: State, active: set<string>, now: nat)
    requires Bounded(s, now)
    ensures Bounded(Pruned(s, active), now)
  {
    hide Tidy, Pruned, Bucket;
    PrunedFacts(s, active);
  }

  /** After any run with a clock that never goes back there are at most fifty workspaces; each has
      between one and twenty contexts with different keys, the latest first; and a visit is
      never lost to its own eviction. */
  lemma {:induction false} EveryRunIsBounded(events: seq<Event>)
    requires NonDecreasing(events)
    ensures Bounded(Run(events), Clock(events)) && |Run(events).order| <= 50
    ensures forall ws :: ws in Run(events).order ==> 0 < |Bucket(Run(events), ws)| <= 20
    ensures events != [] && events[|events| - 1].Visit? ==> events[|events| - 1].ws in Run(events).order
  {
    if events != [] {
      var front, last := events[..|events| - 1], events[|events| - 1];
      EveryRunIsBounded(front);
      var s, now := Run(front), Clock(front);
      match last
      case Visit(ws, c) =>
        VisitBounded(s, ws, c, now);
        SurvivesOwnVisit(s, ws, c, now);
      case Forget(ws, kind, id) => ForgetBounded(s, ws, kind, id, now);
      case Prune(active) => PruneBounded(s, active, now);
    }
  }

  lemma SurvivesOwnVisit(s: State, ws: string, c: Context, now: nat)
    requires Bounded(s, now) && now <= c.visitedAt
    ensures ws in Visited(s, ws, c).order
  {
    JustVisitedEvictedIff(s, ws, c);
    if s.order != [] {
      var w := s.order[0];
      assert w in s.order;
      assert Bucket(s, w)[0] in Bucket(s, w);
      assert Head(s, w) <= now;
    }
  }

  /** Visits to n different workspaces, all at one time. */
  function Crowd(n: nat, kind: Kind, id: string, now: nat): (events: seq<Event>)
    ensures |events| == n
  {
    if n == 0 then [] else Crowd(n - 1, kind, id, now) + [Visit(Name(n - 1), Context(kind, id, map[], now))]
  }

  function Name(n: nat): string {
    seq(n, _ => 'w')
  }

  lemma {:induction false} CrowdFills(n: nat, kind: Kind, id: string, now: nat)
    requires n <= MAX_WORKSPACES
    ensures var s := Run(Crowd(n, kind, id, now));
            && WellFormed(s) && |s.order| == n
            && forall w :: w in s.order ==> |w| < n && Head(s, w) == now
  {
    if n > 0 {
      CrowdFills(n - 1, kind, id, now);
      var s, c := Run(Crowd(n - 1, kind, id, now)), Context(kind, id, map[], now);
      var events := Crowd(n, kind, id, now);
      assert events[..|events| - 1] == Crowd(n - 1, kind, id, now);
      assert Run(events) == Visited(s, Name(n - 1), c);
      hide Run, Visited, Head;
      OneMore(s, Name(n - 1), c);
    }
  }

  /** A visit to a new workspace of a store with room for it. */
  lemma OneMore(s: State, ws: string, c: Context)
    requires WellFormed(s) && |s.order| < MAX_WORKSPACES && ws !in s.order
    ensures var next := Visited(s, ws, c);
            && WellFormed(next) && |next.order| == |s.order| + 1
            && (forall w :: w in next.order <==> w in s.order || w == ws)
            && (forall w :: w in s.order ==> Head(next, w) == Head(s, w)) && Head(next, ws) == c.visitedAt
  {
    var b := Refreshed(Bucket(s, ws), c);
    assert b != [] && b[0] == c;
    hide Refreshed, Put, WellFormed;
    PutFacts(s, ws, b);
  }

  /** Fifty visits, then the clock is set back by any amount, then a visit to one more workspace: that one
      is evicted at once. */
  lemma ClockSetBackLosesVisit(kind: Kind, id: string, now: nat, c: Context)
    requires c.visitedAt < now
    ensures var s := Run(Crowd(MAX_WORKSPACES, kind, id, now));
            && |s.order| == MAX_WORKSPACES
            && Name(MAX_WORKSPACES) !in Visited(s, Name(MAX_WORKSPACES), c).order
  {
    hide Run, Visited;
    CrowdFills(MAX_WORKSPACES, kind, id, now);
    JustVisitedEvictedIff(Run(Crowd(MAX_WORKSPACES, kind, id, now)), Name(MAX_WORKSPACES), c);
  }

  // ---------------------------------------------------------------------------
  // A bucket is the recent part of its workspace's history
  // ---------------------------------------------------------------------------

  /** The keys of the visits to one workspace. */
  function VisitKeys(ws: string, events: seq<Event>): seq<string> {
    if events == [] then []
    else
      var last := events[|events| - 1];
      VisitKeys(ws, events[..|events| - 1]) + if last.Visit? && last.ws == ws then [KeyOf(last.context)] else []
  }

  /** Nothing was forgotten in the workspace, and it was neither pruned nor evicted. */
  ghost predicate Undisturbed(ws: string, events: seq<Event>) {
    events != [] ==>
      && Undisturbed(ws, events[..|events| - 1])
      && (events[|events| - 1].Forget? ==> events[|events| - 1].ws != ws)
      && (ws in Run(events[..|events| - 1]).order ==> ws in Run(events).order)
  }

  /** Left alone, a workspace shows its last twenty distinct contexts, latest first. */
  lemma BucketIsRecent(ws: string, events: seq<Event>)
    requires NonDecreasing(events) && Undisturbed(ws, events)
    ensures Keys(Bucket(Run(events), ws)) == Take(Recent(VisitKeys(ws, events)), 20)
  {
    hide Run, VisitKeys, Keys, Recent, Bucket, NonDecreasing, Undisturbed;
    BucketIsPromoted(ws, events);
    BoundedRefinesUnbounded(VisitKeys(ws, events), MAX_RECENT_CONTEXTS);
  }

  /** The last event refreshes the bucket if it visits the workspace, and otherwise leaves it alone. */
  lemma BucketStep(ws: string, events: seq<Event>)
    requires events != [] && NonDecreasing(events) && Undisturbed(ws, events)
    ensures var last := events[|events| - 1];
            var before := Bucket(Run(events[..|events| - 1]), ws);
            Bucket(Run(events), ws) == if last.Visit? && last.ws == ws then Refreshed(before, last.context) else before
  {
    var front, last := events[..|events| - 1], events[|events| - 1];
    EveryRunIsBounded(front);
    EveryRunIsBounded(events);
    RunSnoc(events);
    hide Run, NonDecreasing, Tidy, Bucket;
    if last.Visit? && last.ws == ws {
      hide Undisturbed, After, Visited;
      VisitedHere(Run(front), ws, last);
    } else {
      StepElsewhere(Run(front), ws, last, front, events);
    }
  }

  lemma VisitedHere(s: State, ws: string, e: Event)
    requires WellFormed(s) && e.Visit? && e.ws == ws && ws in After(s, e).order
    ensures Bucket(After(s, e), ws) == Refreshed(Bucket(s, ws), e.context)
  {
    VisitHere(s, ws, e.context);
  }

  lemma {:induction false} BucketIsPromoted(ws: string, events: seq<Event>)
    requires NonDecreasing(events) && Undisturbed(ws, events)
    ensures Keys(Bucket(Run(events), ws)) == PromoteAll(VisitKeys(ws, events), MAX_RECENT_CONTEXTS)
  {
    if events != [] {
      var front, last := events[..|events| - 1], events[|events| - 1];
      BucketIsPromoted(ws, front);
      BucketStep(ws, events);
      VisitKeysSnoc(ws, events);
      hide Run, NonDecreasing, Undisturbed, Keys, Promote, PromoteAll, VisitKeys, Bucket, Refreshed;
      if last.Visit? && last.ws == ws {
        KeysOfRefreshed(Bucket(Run(front), ws), last.context);
        PromoteAllSnoc(VisitKeys(ws, front), KeyOf(last.context), MAX_RECENT_CONTEXTS);
      } else {
        PromoteAllSnoc(VisitKeys(ws, front), "", MAX_RECENT_CONTEXTS);
      }
    }
  }

  lemma VisitKeysSnoc(ws: string, events: seq<Event>)
    requires events != []
    ensures VisitKeys(ws, events) == VisitKeys(ws, events[..|events| - 1])
              + var last := events[|events| - 1];
                if last.Visit? && last.ws == ws then [KeyOf(last.context)] else []
  {
  }

  lemma PromoteAllSnoc(keys: seq<string>, k: string, cap: nat)
    ensures PromoteAll(keys + [k], cap) == Promote(PromoteAll(keys, cap), k, cap)
    ensures PromoteAll(keys + [], cap) == PromoteAll(keys, cap)
  {
    assert (keys + [k])[..|keys|] == keys;
    assert keys + [] == keys;
  }

  lemma RunSnoc(events: seq<Event>)
    requires events != []
    ensures Run(events) == After(Run(events[..|events| - 1]), events[|events| - 1])
  {
  }

  lemma VisitHere(s: State, ws: string, c: Context)
    requires WellFormed(s) && ws in Visited(s, ws, c).order
    ensures Bucket(Visited(s, ws, c), ws) == Refreshed(Bucket(s, ws), c)
  {
    hide Refreshed, Head;
    var b := Refreshed(Bucket(s, ws), c);
    PutFacts(s, ws, b);
    var next := Put(s, ws, b);
    if |next.order| > MAX_WORKSPACES {
      hide Put, Bucket;
      var i := OldestIsFirstLeast(next, next.order);
      DropFacts(next, next.order[i]);
    }
  }

  lemma VisitElsewhere(s: State, ws: string, w: string, c: Context)
    requires WellFormed(s) && w != ws && (w in s.order ==> w in Visited(s, ws, c).order)
    ensures Bucket(Visited(s, ws, c), w) == Bucket(s, w)
    ensures w in Visited(s, ws, c).order ==> w in s.order
  {
    hide Refreshed, Head;
    var b := Refreshed(Bucket(s, ws), c);
    PutFacts(s, ws, b);
    var next := Put(s, ws, b);
    if |next.order| > MAX_WORKSPACES {
      hide Put;
      var i := OldestIsFirstLeast(next, next.order);
      DropFacts(next, next.order[i]);
    }
  }

  lemma ForgetElsewhere(s: State, ws: string, w: string, kind: Kind, id: string)
    requires WellFormed(s) && w != ws
    ensures Bucket(Forgotten(s, ws, kind, id), w) == Bucket(s, w)
  {
    hide DropKey;
  }

  lemma StepElsewhere(s: State, ws: string, e: Event, front: seq<Event>, events: seq<Event>)
    requires WellFormed(s) && WellFormed(After(s, e)) && events == front + [e]
    requires s == Run(front) && After(s, e) == Run(events) && Undisturbed(ws, events)
    requires !(e.Visit? && e.ws == ws)
    ensures Bucket(After(s, e), ws) == Bucket(s, ws)
  {
    assert events[..|events| - 1] == front;
    assert ws in s.order ==> ws in After(s, e).order;
    match e
    case Visit(w, c) => VisitElsewhere(s, w, ws, c);
    case Forget(w, kind, id) => ForgetElsewhere(s, w, ws, kind, id);
    case Prune(active) =>
  }

  // ---------------------------------------------------------------------------
  // With a rising clock no two workspaces are equally recent
  // ---------------------------------------------------------------------------

  /** Every visit is later than all visits before it; contexts may be forgotten and workspaces pruned in between. */
  ghost predicate Rising(events: seq<Event>) {
    events != [] ==>
      && Rising(events[..|events| - 1])
      && (events[|events| - 1].Visit? ==> Later(events[..|events| - 1], events[|events| - 1].context.visitedAt))
  }

  ghost predicate Later(events: seq<Event>, now: nat) {
    forall e :: e in events && e.Visit? ==> e.context.visitedAt < now
  }

  lemma {:induction false} ClockIsAVisit(events: seq<Event>)
    ensures Clock(events) == 0 || exists e :: e in events && e.Visit? && e.context.visitedAt == Clock(events)
  {
    if events != [] {
      ClockIsAVisit(events[..|events| - 1]);
    }
  }

  lemma {:induction false} RisingIsNonDecreasing(events: seq<Event>)
    requires Rising(events)
    ensures NonDecreasing(events)
  {
    if events != [] {
      RisingIsNonDecreasing(events[..|events| - 1]);
      ClockIsAVisit(events[..|events| - 1]);
    }
  }

  lemma RefreshedWithin(bucket: seq<Context>, c: Context)
    ensures forall x :: x in Refreshed(bucket, c) ==> x == c || x in bucket
  {
    DropKeyWithin(bucket, KeyOf(c));
  }

  /** An event brings nothing into any bucket but the visited context, into its own workspace's. */
  lemma AfterWithin(s: State, e: Event, w: string, x: Context)
    requires WellFormed(s) && x in Bucket(After(s, e), w)
    ensures x in Bucket(s, w) || (e.Visit? && e.ws == w && e.context == x)
  {
    hide WellFormed;
    match e
    case Visit(ws, c) =>
      hide Refreshed;
      var b := Refreshed(Bucket(s, ws), c);
      RefreshedWithin(Bucket(s, ws), c);
      PutFacts(s, ws, b);
    case Forget(ws, kind, id) => DropKeyWithin(Bucket(s, ws), EntryKey(kind, id));
    case Prune(active) =>
  }

  lemma {:induction false} EveryRunIsWellFormed(events: seq<Event>)
    ensures WellFormed(Run(events))
  {
    if events != [] {
      EveryRunIsWellFormed(events[..|events| - 1]);
      hide WellFormed, After;
      StaysWellFormed(Run(events[..|events| - 1]), events[|events| - 1]);
    }
  }

  /** What a bucket shows was visited, and in that workspace. */
  lemma {:induction false} ShownWasVisited(events: seq<Event>, w: string, x: Context)
    requires x in Bucket(Run(events), w)
    ensures Visit(w, x) in events
  {
    hide Bucket, After;
    if events == [] {
      assert Bucket(EMPTY, w) == [] by { NoBuckets(w); }
    } else {
      var front, last := events[..|events| - 1], events[|events| - 1];
      EveryRunIsWellFormed(front);
      AfterWithin(Run(front), last, w, x);
      if x in Bucket(Run(front), w) {
        ShownWasVisited(front, w, x);
      }
    }
  }

  lemma NoBuckets(w: string)
    ensures Bucket(EMPTY, w) == []
  {
  }

  /** With a rising clock no context of one workspace is as recent as one of another. */
  lemma {:induction false} StampsDiffer(events: seq<Event>, v: string, w: string, x: Context, y: Context)
    requires Rising(events) && v != w && x in Bucket(Run(events), v) && y in Bucket(Run(events), w)
    ensures x.visitedAt != y.visitedAt
  {
    hide Bucket, After;
    if events == [] {
      NoBuckets(v);
    } else {
      var front, last := events[..|events| - 1], events[|events| - 1];
      EveryRunIsWellFormed(front);
      AfterWithin(Run(front), last, v, x);
      AfterWithin(Run(front), last, w, y);
      if x in Bucket(Run(front), v) {
        ShownWasVisited(front, v, x);
      }
      if y in Bucket(Run(front), w) {
        ShownWasVisited(front, w, y);
      }
      if x in Bucket(Run(front), v) && y in Bucket(Run(front), w) {
        StampsDiffer(front, v, w, x, y);
      }
    }
  }

  /** After any run with a rising clock, forgets and prunes included, no two workspaces have the same head. */
  lemma HeadsDiffer(events: seq<Event>)
    requires Rising(events)
    ensures forall v, w :: v in Run(events).order && w in Run(events).order && v != w ==>
              Head(Run(events), v) != Head(Run(events), w)
  {
    RisingIsNonDecreasing(events);
    EveryRunIsBounded(events);
    hide Rising, NonDecreasing, Run, Tidy;
    forall v, w | v in Run(events).order && w in Run(events).order && v != w
      ensures Head(Run(events), v) != Head(Run(events), w)
    {
      StampsDiffer(events, v, w, Bucket(Run(events), v)[0], Bucket(Run(events), w)[0]);
    }
  }

  /** In such a run the workspace that a visit evicts is the only one that could be: all that are kept have a
      strictly more recent head. */
  lemma EvictionIsDetermined(events: seq<Event>, ws: string, c: Context, gone: string)
    requires Rising(events + [Visit(ws, c)])
    requires gone in Run(events).order && gone !in Run(events + [Visit(ws, c)]).order
    ensures forall w :: w in Run(events + [Visit(ws, c)]).order ==>
              Head(Run(events), gone) < Head(Run(events + [Visit(ws, c)]), w)
  {
    var all := events + [Visit(ws, c)];
    assert all[..|events|] == events && all[|events|] == Visit(ws, c);
    assert Rising(events) && Later(events, c.visitedAt);
    assert Run(all) == Visited(Run(events), ws, c);
    HeadsDiffer(events);
    hide Rising, Run, Visited, Head, Later;
    RunEvicts(events, ws, c, gone);
    HeadIsEarlier(events, c.visitedAt, gone);
    forall w | w in Run(all).order
      ensures Head(Run(events), gone) < Head(Run(all), w)
    {
      KeptHead(events, ws, c, w);
    }
  }

  lemma RunEvicts(events: seq<Event>, ws: string, c: Context, gone: string)
    requires Rising(events) && gone in Run(events).order && gone !in Visited(Run(events), ws, c).order
    ensures ws != gone
    ensures forall w :: w in Visited(Run(events), ws, c).order ==>
              Head(Run(events), gone) <= Head(Visited(Run(events), ws, c), w)
  {
    RisingIsNonDecreasing(events);
    EveryRunIsBounded(events);
    hide Run, Rising, NonDecreasing, Tidy, Visited, Head;
    EvictionTakesLeastRecent(Run(events), ws, c, gone);
  }

  /** What a visit keeps has the head it had, or is the visited workspace. */
  lemma KeptHead(events: seq<Event>, ws: string, c: Context, w: string)
    requires w in Visited(Run(events), ws, c).order
    ensures w != ws ==> w in Run(events).order && Head(Visited(Run(events), ws, c), w) == Head(Run(events), w)
    ensures w == ws ==> Head(Visited(Run(events), ws, c), w) == c.visitedAt
  {
    EveryRunIsWellFormed(events);
    var s := Run(events);
    hide Run;
    if w == ws {
      VisitHere(s, ws, c);
    } else {
      VisitElsewhere(s, ws, w, c);
    }
  }

  lemma HeadIsEarlier(events: seq<Event>, now: nat, ws: string)
    requires Rising(events) && Later(events, now) && ws in Run(events).order
    ensures Head(Run(events), ws) < now
  {
    RisingIsNonDecreasing(events);
    EveryRunIsBounded(events);
    hide Run, Rising, NonDecreasing, Tidy;
    ShownWasVisited(events, ws, Bucket(Run(events), ws)[0]);
  }

  // ---------------------------------------------------------------------------
  // The store keeps the fifty workspaces visited last
  // ---------------------------------------------------------------------------

  ghost predicate VisitsOnly(events: seq<Event>) {
    forall e :: e in events ==> e.Visit?
  }

  function Places(events: seq<Event>): seq<string> {
    if events == [] then []
    else Places(events[..|events| - 1]) + if events[|events| - 1].Visit? then [events[|events| - 1].ws] else []
  }

  /** The list names the store's workspaces, the most recently visited first. */
  ghost predicate Ranks(s: State, list: seq<string>) {
    && Distinct(list)
    && (forall ws :: ws in list <==> ws in s.order)
    && Descending(s, list)
  }

  ghost predicate Descending(s: State, list: seq<string>) {
    forall i, j :: 0 <= i < j < |list| ==> Head(s, list[i]) > Head(s, list[j])
  }

  lemma {:induction false} WithoutDescending(s: State, list: seq<string>, ws: string)
    requires Distinct(list) && Descending(s, list)
    ensures Descending(s, Without(list, ws))
  {
    hide Head;
    if list != [] {
      WithoutDescending(s, list[1..], ws);
      var rest := Without(list[1..], ws);
      forall j | 0 <= j < |rest|
        ensures Head(s, list[0]) > Head(s, rest[j])
      {
        WithoutIn(list[1..], rest[j], ws);
        var k :| 0 <= k < |list[1..]| && list[1..][k] == rest[j];
        assert list[k + 1] == rest[j];
      }
    }
  }

  lemma SameSize(s: State, list: seq<string>)
    requires WellFormed(s) && Ranks(s, list)
    ensures |list| == |s.order|
  {
    DistinctWithin(list, s.order);
    DistinctWithin(s.order, list);
  }

  /** The visited workspace goes to the front of the ranking, before anything is evicted. */
  lemma RanksPut(s: State, list: seq<string>, ws: string, b: seq<Context>)
    requires WellFormed(s) && Ranks(s, list)
    requires b != [] && forall w :: w in s.order ==> Head(s, w) < b[0].visitedAt
    ensures Ranks(Put(s, ws, b), [ws] + Without(list, ws))
  {
    hide Put, Head, Bucket, Descending, Without, WellFormed, Distinct;
    PutFacts(s, ws, b);
    WithoutFacts(list, ws);
    var rest := Without(list, ws);
    ConsDistinct(ws, rest);
    WithoutDescending(s, list, ws);
    assert forall k :: 0 <= k < |rest| ==> rest[k] in rest;
    FrontDescending(s, rest, ws, b);
  }

  lemma ConsDistinct(x: string, xs: seq<string>)
    requires Distinct(xs) && x !in xs
    ensures Distinct([x] + xs)
    ensures forall w :: w in [x] + xs <==> w == x || w in xs
  {
  }

  lemma FrontDescending(s: State, rest: seq<string>, ws: string, b: seq<Context>)
    requires Descending(s, rest) && b != []
    requires forall k :: 0 <= k < |rest| ==> rest[k] != ws && Head(s, rest[k]) < b[0].visitedAt
    ensures Descending(Put(s, ws, b), [ws] + rest)
  {
    var next := Put(s, ws, b);
    assert forall k :: 0 <= k < |rest| ==> Head(next, rest[k]) == Head(s, rest[k]);
    assert Head(next, ws) == b[0].visitedAt;
    hide Head, Put;
  }

  /** With heads in strict order the evicted workspace is the last of the ranking. */
  lemma RanksEvict(s: State, list: seq<string>)
    requires WellFormed(s) && Ranks(s, list) && list != [] && s.order != []
    ensures Oldest(s, s.order) == list[|list| - 1]
    ensures Ranks(Drop(s, Oldest(s, s.order)), list[..|list| - 1])
  {
    hide Head;
    var n := |list| - 1;
    var i := OldestIsFirstLeast(s, s.order);
    var oldest := s.order[i];
    assert oldest in list;
    var k :| 0 <= k < |list| && list[k] == oldest;
    assert list[n] in s.order;
    var m :| 0 <= m < |s.order| && s.order[m] == list[n];
    assert k == n;
    DropFacts(s, oldest);
    EvictedRanking(s, list);
  }

  lemma EvictedRanking(s: State, list: seq<string>)
    requires WellFormed(s) && Ranks(s, list) && list != [] && list[|list| - 1] in s.order
    ensures Ranks(Drop(s, list[|list| - 1]), list[..|list| - 1])
  {
    hide Head, Drop, Descending, Distinct, WellFormed;
    var n := |list| - 1;
    var front := list[..n];
    FrontOf(list);
    DropFacts(s, list[n]);
    FrontDescends(s, list);
    SameHeads(s, front, list[n]);
  }

  lemma FrontOf(list: seq<string>)
    requires Distinct(list) && list != []
    ensures Distinct(list[..|list| - 1]) && list[|list| - 1] !in list[..|list| - 1]
    ensures forall w :: w in list[..|list| - 1] <==> w in list && w != list[|list| - 1]
  {
    assert list == list[..|list| - 1] + [list[|list| - 1]];
  }

  lemma FrontDescends(s: State, list: seq<string>)
    requires Descending(s, list) && list != []
    ensures Descending(s, list[..|list| - 1])
  {
    hide Head;
  }

  lemma SameHeads(s: State, list: seq<string>, gone: string)
    requires Descending(s, list) && gone !in list
    ensures Descending(Drop(s, gone), list)
  {
    assert forall k :: 0 <= k < |list| ==> list[k] != gone && Head(Drop(s, gone), list[k]) == Head(s, list[k]);
    hide Head, Drop;
  }

  lemma RanksVisit(s: State, list: seq<string>, ws: string, c: Context)
    requires WellFormed(s) && |s.order| <= MAX_WORKSPACES && Ranks(s, list)
    requires forall w :: w in s.order ==> Head(s, w) < c.visitedAt
    ensures Ranks(Visited(s, ws, c), Promote(list, ws, MAX_WORKSPACES))
  {
    hide Head, Ranks, Without;
    var b := Refreshed(Bucket(s, ws), c);
    RanksPut(s, list, ws, b);
    PutFacts(s, ws, b);
    var next := Put(s, ws, b);
    var all := [ws] + Without(list, ws);
    SameSize(next, all);
    if |next.order| > MAX_WORKSPACES {
      hide Put, Bucket;
      RanksEvict(next, all);
      assert |all| == MAX_WORKSPACES + 1;
    }
  }

  /** With a strictly rising clock the workspaces kept are exactly the last fifty distinct ones visited. */
  lemma KeepsMostRecentWorkspaces(events: seq<Event>)
    requires VisitsOnly(events) && Rising(events)
    ensures forall ws :: ws in Run(events).order <==> ws in Take(Recent(Places(events)), 50)
  {
    hide Run, Recent, Places, Rising;
    RunRanks(events);
    BoundedRefinesUnbounded(Places(events), MAX_WORKSPACES);
  }

  lemma {:induction false} RunRanks(events: seq<Event>)
    requires VisitsOnly(events) && Rising(events)
    ensures Ranks(Run(events), PromoteAll(Places(events), MAX_WORKSPACES))
  {
    if events != [] {
      var front, last := events[..|events| - 1], events[|events| - 1];
      RunRanks(front);
      RisingIsNonDecreasing(front);
      EveryRunIsBounded(front);
      var s, places := Run(front), Places(front);
      assert Places(events)[..|places|] == places;
      RunSnoc(events);
      hide Run, Ranks, NonDecreasing, Rising, Places, Tidy, Visited, Promote;
      forall w | w in s.order
        ensures Head(s, w) < last.context.visitedAt
      {
        HeadIsEarlier(front, last.context.visitedAt, w);
      }
      RanksVisit(s, PromoteAll(places, MAX_WORKSPACES), last.ws, last.context);
    }
  }

  /** Forgetting takes out exactly one key, leaves every other workspace alone, and keeps no empty bucket. */
  lemma ForgetRemovesOneKey(s: State, ws: string, kind: Kind, id: string)
    requires WellFormed(s) && (ws in s.order ==> Bucket(s, ws) != [])
    ensures Keys(Bucket(Forgotten(s, ws, kind, id), ws)) == Without(Keys(Bucket(s, ws)), EntryKey(kind, id))
    ensures ws in Forgotten(s, ws, kind, id).order <==> Without(Keys(Bucket(s, ws)), EntryKey(kind, id)) != []
    ensures forall w :: w != ws ==> Bucket(Forgotten(s, ws, kind, id), w) == Bucket(s, w)
  {
    hide DropKey, Without, Drop, Put, EntryKey;
    var key := EntryKey(kind, id);
    var b := Bucket(s, ws);
    var rest := DropKey(b, key);
    KeysOfDrop(b, key);
    DropKeyShrinks(b, key);
    PutFacts(s, ws, rest);
    if ws in s.order {
      DropFacts(s, ws);
    }
  }

  lemma {:induction false} DropKeyShrinks(bucket: seq<Context>, key: string)
    ensures |DropKey(bucket, key)| == |bucket| <==> DropKey(bucket, key) == bucket
  {
    if bucket != [] {
      DropKeyShrinks(bucket[1..], key);
      DropKeyWithin(bucket[1..], key);
    }
  }
}
