/** The current workspace and the storage namespaced by it
    (packages/core/platform/workspace-storage.ts, packages/core/platform/storage-cleanup.ts). */
module WorkspaceStorage {
  import opened Text
  import opened Sequences

  // ---------------------------------------------------------------------------
  // Namespaced keys
  // ---------------------------------------------------------------------------

  function StorageKey(key: string, slug: string): string {
    key + ":" + slug
  }

  ghost predicate EndsWith(s: string, tail: string) {
    |tail| <= |s| && s[|s| - |tail|..] == tail
  }

  /** No two keys, one under each slug, name the same entry. */
  ghost predicate Isolated(s1: string, s2: string) {
    forall k1, k2 :: StorageKey(k1, s1) != StorageKey(k2, s2)
  }

  lemma KeyInjective(k1: string, k2: string, slug: string)
    ensures StorageKey(k1, slug) == StorageKey(k2, slug) <==> k1 == k2
  {
    if StorageKey(k1, slug) == StorageKey(k2, slug) {
      assert StorageKey(k1, slug)[..|k1|] == k1;
      assert StorageKey(k2, slug)[..|k2|] == k2;
    }
  }

  lemma KeyEndsWithSlug(key: string, slug: string)
    ensures EndsWith(StorageKey(key, slug), ":" + slug)
  {
    var s := StorageKey(key, slug);
    assert s == key + (":" + slug);
  }

  lemma TailsNest(s: string, a: string, b: string)
    requires EndsWith(s, a) && EndsWith(s, b) && |a| <= |b|
    ensures EndsWith(b, a)
  {
    assert b == s[|s| - |b|..];
    assert b[|b| - |a|..] == s[|s| - |a|..];
  }

  lemma CollisionFromTail(s1: string, s2: string)
    requires EndsWith(":" + s1, ":" + s2)
    ensures !Isolated(s1, s2)
  {
    var long, short := ":" + s1, ":" + s2;
    var k := long[..|long| - |short|];
    assert long == k + short;
    assert StorageKey("", s1) == long;
    assert StorageKey(k, s2) == k + short;
  }

  /** Two workspaces share an entry exactly when one slug with its colon ends the other. */
  lemma IsolatedIff(s1: string, s2: string)
    ensures Isolated(s1, s2) <==> !EndsWith(":" + s1, ":" + s2) && !EndsWith(":" + s2, ":" + s1)
  {
    if EndsWith(":" + s1, ":" + s2) {
      CollisionFromTail(s1, s2);
    } else if EndsWith(":" + s2, ":" + s1) {
      CollisionFromTail(s2, s1);
      assert !Isolated(s1, s2) by {
        var k2, k1 :| StorageKey(k2, s2) == StorageKey(k1, s1);
        assert StorageKey(k1, s1) == StorageKey(k2, s2);
      }
    } else {
      forall k1, k2
        ensures StorageKey(k1, s1) != StorageKey(k2, s2)
      {
        if StorageKey(k1, s1) == StorageKey(k2, s2) {
          KeyEndsWithSlug(k1, s1);
          KeyEndsWithSlug(k2, s2);
          hide StorageKey, EndsWith;
          if |s1| <= |s2| {
            TailsNest(StorageKey(k1, s1), ":" + s1, ":" + s2);
          } else {
            TailsNest(StorageKey(k1, s1), ":" + s2, ":" + s1);
          }
          assert false;
        }
      }
    }
  }

  /** Different slugs without colons never meet, whatever the keys contain. */
  lemma ColonFreeSlugsAreIsolated(s1: string, s2: string)
    requires s1 != s2 && ':' !in s1 && ':' !in s2
    ensures Isolated(s1, s2)
  {
    if EndsWith(":" + s1, ":" + s2) {
      TailHasColon(s1, s2);
    }
    if EndsWith(":" + s2, ":" + s1) {
      TailHasColon(s2, s1);
    }
    IsolatedIff(s1, s2);
  }

  lemma TailHasColon(s1: string, s2: string)
    requires EndsWith(":" + s1, ":" + s2)
    ensures s1 == s2 || ':' in s1
  {
    var long, short := ":" + s1, ":" + s2;
    var k := |long| - |short|;
    assert long[k] == long[k..][0] == ':';
    if k > 0 {
      assert s1[k - 1] == ':';
    } else {
      assert long[0..] == long;
      assert long[1..] == s1 && short[1..] == s2;
    }
  }

  // ---------------------------------------------------------------------------
  // The module state
  // ---------------------------------------------------------------------------

  datatype Task = Notify | Rehydrate

  /** `views` is the slug each subscriber last read or was told, `loaded` the one each registered
      store last hydrated from. The browser's microtask queue is explicit. */
  datatype State = State(
    slug: Option<string>,
    wsId: Option<string>,
    queue: seq<Task>,
    pendingNotify: bool,
    pendingRehydrate: bool,
    subscribers: seq<int>,
    views: map<int, Option<string>>,
    stores: seq<int>,
    loaded: map<int, Option<string>>,
    disk: map<string, string>)

  const START := State(None, None, [], false, false, [], map[], [], map[], map[])

  datatype Op =
    | SetCurrent(slug: Option<string>, wsId: Option<string>)
    | Subscribe(subscriber: int)
    | Unsubscribe(subscriber: int)
    | Register(store: int)
    | SetItem(key: string, value: string)
    | RemoveItem(key: string)
    | Clear(cleared: string)
    | Tick

  /** A slug that is null or empty is no workspace. */
  predicate Active(slug: Option<string>) {
    slug.Some? && slug.value != ""
  }

  const WORKSPACE_SCOPED_KEYS: seq<string> := [
    "multica_issue_draft",
    "multica_issues_view",
    "multica_issues_scope",
    "multica_my_issues_view",
    "multica:chat:selectedAgentId",
    "multica:chat:activeSessionId",
    "multica:chat:drafts",
    "multica:chat:expanded",
    "multica_navigation"
  ]

  function ScopedEntries(keys: seq<string>, slug: string): set<string> {
    set k | k in keys :: StorageKey(k, slug)
  }

  function Informed(fs: seq<int>, views: map<int, Option<string>>, slug: Option<string>): map<int, Option<string>> {
    map f | f in views.Keys + Elements(fs) :: if f in fs then slug else views[f]
  }

  function Switched(s: State, slug: Option<string>, wsId: Option<string>): State {
    if s.slug == slug then s.(wsId := wsId)
    else s.(slug := slug, wsId := wsId,
            queue := s.queue
                     + (if s.pendingNotify then [] else [Notify])
                     + (if s.pendingRehydrate then [] else [Rehydrate]),
            pendingNotify := true, pendingRehydrate := true)
  }

  function Ticked(s: State): State {
    if s.queue == [] then s
    else if s.queue[0].Notify? then
      s.(queue := s.queue[1..], pendingNotify := false, views := Informed(s.subscribers, s.views, s.slug))
    else
      s.(queue := s.queue[1..], pendingRehydrate := false, loaded := Informed(s.stores, s.loaded, s.slug))
  }

  function Next(s: State, op: Op): State {
    match op
    case SetCurrent(slug, wsId) => Switched(s, slug, wsId)
    case Subscribe(f) =>
      s.(subscribers := if f in s.subscribers then s.subscribers else s.subscribers + [f],
         views := s.views[f := s.slug])
    case Unsubscribe(f) => s.(subscribers := Without(s.subscribers, f))
    case Register(f) => s.(stores := s.stores + [f], loaded := s.loaded[f := s.slug])
    case SetItem(key, value) => if Active(s.slug) then s.(disk := s.disk[StorageKey(key, s.slug.value) := value]) else s
    case RemoveItem(key) => if Active(s.slug) then s.(disk := s.disk - {StorageKey(key, s.slug.value)}) else s
    case Clear(slug) => s.(disk := s.disk - ScopedEntries(WORKSPACE_SCOPED_KEYS, slug))
    case Tick => Ticked(s)
  }

  function Run(ops: seq<Op>): State {
    if ops == [] then START else Next(Run(ops[..|ops| - 1]), ops[|ops| - 1])
  }

  // ---------------------------------------------------------------------------
  // The module as an object
  // ---------------------------------------------------------------------------

  class Workspace {
    var slug: Option<string>
    var wsId: Option<string>
    var queue: seq<Task>
    var pendingNotify: bool
    var pendingRehydrate: bool
    var subscribers: seq<int>
    var views: map<int, Option<string>>
    var stores: seq<int>
    var loaded: map<int, Option<string>>
    var disk: map<string, string>

    function Value(): State
      reads this
    {
      State(slug, wsId, queue, pendingNotify, pendingRehydrate, subscribers, views, stores, loaded, disk)
    }

    constructor ()
      ensures Value() == START
    {
      slug, wsId, queue, pendingNotify, pendingRehydrate := None, None, [], false, false;
      subscribers, views, stores, loaded, disk := [], map[], [], map[], map[];
    }

    method SetCurrentWorkspace(next: Option<string>, id: Option<string>)
      modifies this
      ensures Value() == Next(old(Value()), SetCurrent(next, id))
    {
      if slug == next {
        wsId := id;
        return;
      }
      slug, wsId := next, id;
      if !pendingNotify {
        pendingNotify := true;
        queue := queue + [Notify];
      }
      if !pendingRehydrate {
        pendingRehydrate := true;
        queue := queue + [Rehydrate];
      }
      assert old(queue) + [] + [] == old(queue);
    }

    /** Runs the microtask at the front of the queue. */
    method RunMicrotask()
      requires queue != []
      modifies this
      ensures Value() == Next(old(Value()), Tick)
    {
      var task := queue[0];
      queue := queue[1..];
      match task
      case Notify =>
        pendingNotify := false;
        views := Inform(subscribers, views, slug);
      case Rehydrate =>
        pendingRehydrate := false;
        loaded := Inform(stores, loaded, slug);
    }

    /** Adds to the set of subscribers; the subscriber reads the current slug as it does so. */
    method SubscribeToCurrentSlug(f: int)
      modifies this
      ensures Value() == Next(old(Value()), Subscribe(f))
    {
      if f !in subscribers {
        subscribers := subscribers + [f];
      }
      views := views[f := slug];
    }

    method UnsubscribeFromCurrentSlug(f: int)
      modifies this
      ensures Value() == Next(old(Value()), Unsubscribe(f))
    {
      subscribers := Without(subscribers, f);
    }

    /** A persisted store hydrates when it is created and then registers. */
    method RegisterForWorkspaceRehydration(f: int)
      modifies this
      ensures Value() == Next(old(Value()), Register(f))
    {
      stores := stores + [f];
      loaded := loaded[f := slug];
    }

    method GetItem(key: string) returns (r: Option<string>)
      ensures r == if Active(slug) then Lookup(disk, key, slug.value) else None
    {
      if slug.Some? && slug.value != "" {
        var k := key + ":" + slug.value;
        r := if k in disk then Some(disk[k]) else None;
      } else {
        r := None;
      }
    }

    method SetNamespacedItem(key: string, value: string)
      modifies this
      ensures Value() == Next(old(Value()), SetItem(key, value))
    {
      if slug.Some? && slug.value != "" {
        disk := disk[key + ":" + slug.value := value];
      }
    }

    method RemoveNamespacedItem(key: string)
      modifies this
      ensures Value() == Next(old(Value()), RemoveItem(key))
    {
      if slug.Some? && slug.value != "" {
        disk := disk - {key + ":" + slug.value};
      }
    }

    method ClearWorkspaceStorage(cleared: string)
      modifies this
      ensures Value() == Next(old(Value()), Clear(cleared))
    {
      var keys := WORKSPACE_SCOPED_KEYS;
      for i := 0 to |keys|
        invariant Value() == old(Value()).(disk := old(disk) - ScopedEntries(keys[..i], cleared))
      {
        assert keys[..i + 1] == keys[..i] + [keys[i]];
        assert ScopedEntries(keys[..i + 1], cleared) == ScopedEntries(keys[..i], cleared)
            + {StorageKey(keys[i], cleared)};
        disk := disk - {StorageKey(keys[i], cleared)};
      }
      assert keys[..|keys|] == keys;
    }
  }

  function Lookup(disk: map<string, string>, key: string, slug: string): Option<string> {
    if StorageKey(key, slug) in disk then Some(disk[StorageKey(key, slug)]) else None
  }

  /** Calls every function of a list with the current slug. */
  method Inform(fs: seq<int>, views: map<int, Option<string>>, current: Option<string>)
    returns (next: map<int, Option<string>>)
    ensures next == Informed(fs, views, current)
  {
    next := views;
    for i := 0 to |fs|
      invariant next == Informed(fs[..i], views, current)
    {
      assert fs[..i + 1] == fs[..i] + [fs[i]];
      next := next[fs[i] := current];
    }
    assert fs[..|fs|] == fs;
  }

  // ---------------------------------------------------------------------------
  // Everyone hears of the last switch
  // ---------------------------------------------------------------------------

  /** Position of the task in the queue: nowhere, or at exactly one place. */
  ghost predicate QueuedOnce(queue: seq<Task>, task: Task, pending: bool) {
    && (pending <==> task in queue)
    && (forall i, j :: 0 <= i < j < |queue| ==> !(queue[i] == task == queue[j]))
  }

  ghost predicate UpToDate(fs: seq<int>, views: map<int, Option<string>>, slug: Option<string>) {
    forall f :: f in fs ==> f in views && views[f] == slug
  }

  ghost predicate Settling(s: State) {
    && QueuedOnce(s.queue, Notify, s.pendingNotify)
    && QueuedOnce(s.queue, Rehydrate, s.pendingRehydrate)
    && (!s.pendingNotify ==> UpToDate(s.subscribers, s.views, s.slug))
    && (!s.pendingRehydrate ==> UpToDate(s.stores, s.loaded, s.slug))
  }

  lemma SwitchSettles(s: State, slug: Option<string>, wsId: Option<string>)
    requires Settling(s)
    ensures Settling(Switched(s, slug, wsId))
  {
    var first := s.queue + if s.pendingNotify then [] else [Notify];
    Enqueue(s.queue, Notify, s.pendingNotify, Rehydrate, s.pendingRehydrate);
    Enqueue(first, Rehydrate, s.pendingRehydrate, Notify, true);
    hide QueuedOnce;
  }

  /** Queueing a task that is not pending keeps both kinds single. */
  lemma Enqueue(q: seq<Task>, task: Task, pending: bool, other: Task, otherPending: bool)
    requires task != other && QueuedOnce(q, task, pending) && QueuedOnce(q, other, otherPending)
    ensures QueuedOnce(q + if pending then [] else [task], task, true)
    ensures QueuedOnce(q + if pending then [] else [task], other, otherPending)
  {
    if pending {
      assert q + [] == q;
    } else {
      assert (q + [task])[|q|] == task;
      assert forall t :: t in q + [task] <==> t in q || t == task;
    }
  }

  lemma TickSettles(s: State)
    requires Settling(s)
    ensures Settling(Ticked(s))
  {
    if s.queue != [] {
      assert s.queue == [s.queue[0]] + s.queue[1..];
    }
  }

  lemma SubscribeSettles(s: State, f: int)
    requires Settling(s)
    ensures Settling(Next(s, Subscribe(f)))
    ensures Settling(Next(s, Register(f)))
    ensures Settling(Next(s, Unsubscribe(f)))
  {
    hide QueuedOnce;
    forall g | g in Without(s.subscribers, f)
      ensures g in s.subscribers
    {
      WithoutIn(s.subscribers, g, f);
    }
  }

  lemma {:induction false} EveryRunSettles(ops: seq<Op>)
    ensures Settling(Run(ops))
  {
    if ops != [] {
      var s, op := Run(ops[..|ops| - 1]), ops[|ops| - 1];
      EveryRunSettles(ops[..|ops| - 1]);
      match op
      case SetCurrent(slug, wsId) => SwitchSettles(s, slug, wsId);
      case Tick => TickSettles(s);
      case Subscribe(f) => SubscribeSettles(s, f);
      case Unsubscribe(f) => SubscribeSettles(s, f);
      case Register(f) => SubscribeSettles(s, f);
      case _ =>
    }
  }

  /** At most one task of each kind is ever queued. Whoever has not yet got the current slug has
      one coming; once the queue is empty every subscriber has been told the current slug, and every store
      has hydrated from it, however many switches there were. */
  lemma QuietMeansInformed(ops: seq<Op>)
    ensures |Run(ops).queue| <= 2
    ensures !UpToDate(Run(ops).subscribers, Run(ops).views, Run(ops).slug) ==> Notify in Run(ops).queue
    ensures !UpToDate(Run(ops).stores, Run(ops).loaded, Run(ops).slug) ==> Rehydrate in Run(ops).queue
    ensures Run(ops).queue == [] ==>
              && UpToDate(Run(ops).subscribers, Run(ops).views, Run(ops).slug)
              && UpToDate(Run(ops).stores, Run(ops).loaded, Run(ops).slug)
  {
    hide Run, UpToDate, QueuedOnce;
    EveryRunSettles(ops);
    QuietIsSettled(Run(ops));
    if |Run(ops).queue| > 2 {
      ThreeRepeat(Run(ops).queue, Run(ops).pendingNotify, Run(ops).pendingRehydrate);
    }
  }

  lemma QuietIsSettled(s: State)
    requires Settling(s)
    ensures s.pendingNotify <==> Notify in s.queue
    ensures s.pendingRehydrate <==> Rehydrate in s.queue
  {
  }

  lemma ThreeRepeat(q: seq<Task>, notify: bool, rehydrate: bool)
    requires |q| > 2
    ensures !QueuedOnce(q, Notify, notify) || !QueuedOnce(q, Rehydrate, rehydrate)
  {
    assert q[0] == q[1] || q[0] == q[2] || q[1] == q[2];
  }

  // ---------------------------------------------------------------------------
  // One namespace a workspace
  // ---------------------------------------------------------------------------

  /** What was last written under one key of one workspace; looks at no other workspace. */
  function LastWritten(ops: seq<Op>, key: string, slug: string): Option<string> {
    if ops == [] then None
    else
      var front, last := ops[..|ops| - 1], ops[|ops| - 1];
      var here := Run(front).slug == Some(slug);
      match last
      case SetItem(k, value) => if here && k == key then Some(value) else LastWritten(front, key, slug)
      case RemoveItem(k) => if here && k == key then None else LastWritten(front, key, slug)
      case Clear(cleared) =>
        if cleared == slug && key in WORKSPACE_SCOPED_KEYS then None else LastWritten(front, key, slug)
      case _ => LastWritten(front, key, slug)
  }

  /** Every other slug that is switched to or cleared in the run keeps apart from this one. */
  ghost predicate KeepsApart(ops: seq<Op>, slug: string) {
    forall i :: 0 <= i < |ops| ==>
      && (ops[i].SetCurrent? && ops[i].slug.Some? && ops[i].slug.value != slug ==> Isolated(ops[i].slug.value, slug))
      && (ops[i].Clear? && ops[i].cleared != slug ==> Isolated(ops[i].cleared, slug))
  }

  lemma {:induction false} CurrentKeepsApart(ops: seq<Op>, slug: string)
    requires KeepsApart(ops, slug)
    ensures Run(ops).slug.Some? && Run(ops).slug.value != slug ==> Isolated(Run(ops).slug.value, slug)
  {
    if ops != [] {
      assert ops[|ops| - 1] == ops[|ops| - 1];
      CurrentKeepsApart(ops[..|ops| - 1], slug);
    }
  }

  lemma SetItemLooksUp(s: State, k: string, value: string, key: string, slug: string)
    requires slug != "" && (s.slug.Some? && s.slug.value != slug ==> Isolated(s.slug.value, slug))
    ensures Lookup(Next(s, SetItem(k, value)).disk, key, slug)
         == if s.slug == Some(slug) && k == key then Some(value) else Lookup(s.disk, key, slug)
    ensures Lookup(Next(s, RemoveItem(k)).disk, key, slug)
         == if s.slug == Some(slug) && k == key then None else Lookup(s.disk, key, slug)
  {
    if s.slug.Some? {
      KeyInjective(k, key, slug);
      assert s.slug.value != slug ==> StorageKey(k, s.slug.value) != StorageKey(key, slug);
    }
  }

  lemma ClearLooksUp(s: State, cleared: string, key: string, slug: string)
    requires cleared != slug ==> Isolated(cleared, slug)
    ensures Lookup(Next(s, Clear(cleared)).disk, key, slug)
         == if cleared == slug && key in WORKSPACE_SCOPED_KEYS then None else Lookup(s.disk, key, slug)
  {
    var entries := ScopedEntries(WORKSPACE_SCOPED_KEYS, cleared);
    if StorageKey(key, slug) in entries {
      var k :| k in WORKSPACE_SCOPED_KEYS && StorageKey(k, cleared) == StorageKey(key, slug);
      if cleared == slug {
        KeyInjective(k, key, slug);
      }
    }
  }

  /** The one flat store behaves like a separate store for each workspace: a read gives the last
      value written there, whatever other workspaces wrote, removed or cleared. */
  lemma {:induction false} ReadsLastWritten(ops: seq<Op>, key: string, slug: string)
    requires slug != "" && KeepsApart(ops, slug)
    ensures Lookup(Run(ops).disk, key, slug) == LastWritten(ops, key, slug)
  {
    if ops != [] {
      var front, last := ops[..|ops| - 1], ops[|ops| - 1];
      FrontKeepsApart(ops, slug);
      ReadsLastWritten(front, key, slug);
      CurrentKeepsApart(front, slug);
      RunSnoc(ops);
      hide Lookup, Isolated, Run, KeepsApart;
      StepReadsLastWritten(Run(front), last, key, slug);
    }
  }

  lemma FrontKeepsApart(ops: seq<Op>, slug: string)
    requires KeepsApart(ops, slug) && ops != []
    ensures KeepsApart(ops[..|ops| - 1], slug)
    ensures ops[|ops| - 1].Clear? && ops[|ops| - 1].cleared != slug ==> Isolated(ops[|ops| - 1].cleared, slug)
  {
    hide Isolated;
    assert forall i :: 0 <= i < |ops| - 1 ==> ops[..|ops| - 1][i] == ops[i];
  }

  lemma RunSnoc(ops: seq<Op>)
    requires ops != []
    ensures Run(ops) == Next(Run(ops[..|ops| - 1]), ops[|ops| - 1])
  {
  }

  /** What one step does to one entry. */
  lemma StepReadsLastWritten(s: State, op: Op, key: string, slug: string)
    requires slug != "" && (s.slug.Some? && s.slug.value != slug ==> Isolated(s.slug.value, slug))
    requires op.Clear? && op.cleared != slug ==> Isolated(op.cleared, slug)
    ensures Lookup(Next(s, op).disk, key, slug) ==
            match op
            case SetItem(k, value) =>
              if s.slug == Some(slug) && k == key then Some(value) else Lookup(s.disk, key, slug)
            case RemoveItem(k) => if s.slug == Some(slug) && k == key then None else Lookup(s.disk, key, slug)
            case Clear(cleared) =>
              if cleared == slug && key in WORKSPACE_SCOPED_KEYS then None else Lookup(s.disk, key, slug)
            case _ => Lookup(s.disk, key, slug)
  {
    hide Lookup, Isolated;
    match op
    case SetItem(k, value) => SetItemLooksUp(s, k, value, key, slug);
    case RemoveItem(k) => SetItemLooksUp(s, k, "", key, slug);
    case Clear(cleared) => ClearLooksUp(s, cleared, key, slug);
    case _ =>
  }

  /** With colon-free slugs no two workspaces interfere, so every run qualifies. */
  lemma ColonFreeRunsKeepApart(ops: seq<Op>, slug: string)
    requires ':' !in slug
    requires forall i :: 0 <= i < |ops| ==>
      && (ops[i].SetCurrent? && ops[i].slug.Some? ==> ':' !in ops[i].slug.value)
      && (ops[i].Clear? ==> ':' !in ops[i].cleared)
    ensures KeepsApart(ops, slug)
  {
    hide Isolated;
    forall t | t != slug && ':' !in t
      ensures Isolated(t, slug)
    {
      ColonFreeSlugsAreIsolated(t, slug);
    }
  }

  /** Until a workspace becomes active nothing is stored at all, not even under a bare key. */
  lemma {:induction false} InactiveRunsStoreNothing(ops: seq<Op>)
    requires forall i :: 0 <= i < |ops| && ops[i].SetCurrent? ==> ops[i].slug == None || ops[i].slug == Some("")
    ensures (Run(ops).slug == None || Run(ops).slug == Some("")) && Run(ops).disk == map[]
  {
    if ops != [] {
      InactiveRunsStoreNothing(ops[..|ops| - 1]);
      assert ops[|ops| - 1] == ops[|ops| - 1];
    }
  }

  /** In every run, what was written just before the workspace is cleaned up is still read afterwards if
      and only if the list does not name its key. */
  lemma SurvivesCleanupIff(ops: seq<Op>, key: string, value: string, slug: string)
    requires slug != "" && Run(ops).slug == Some(slug)
    ensures Lookup(Run(ops + [SetItem(key, value), Clear(slug)]).disk, key, slug) == Some(value)
       <==> key !in WORKSPACE_SCOPED_KEYS
  {
    var written := ops + [SetItem(key, value)];
    var cleared := ops + [SetItem(key, value), Clear(slug)];
    assert written[..|ops|] == ops && cleared[..|ops| + 1] == written;
    RunSnoc(written);
    RunSnoc(cleared);
    SetItemLooksUp(Run(ops), key, value, key, slug);
    ClearLooksUp(Run(written), slug, key, slug);
  }

  const DRAFTS := "multica_comment_drafts"

  /** A key that a workspace-scoped store uses and the list does not name: the drafts survive in every run. */
  lemma DraftsSurviveCleanup(ops: seq<Op>, text: string, slug: string)
    requires slug != "" && Run(ops).slug == Some(slug)
    ensures Lookup(Run(ops + [SetItem(DRAFTS, text), Clear(slug)]).disk, DRAFTS, slug) == Some(text)
  {
    DraftsAreUnlisted();
    SurvivesCleanupIff(ops, DRAFTS, text, slug);
  }

  lemma DraftsAreUnlisted()
    ensures DRAFTS !in WORKSPACE_SCOPED_KEYS
  {
    var keys := WORKSPACE_SCOPED_KEYS;
    forall i | 0 <= i < |keys|
      ensures keys[i] != DRAFTS
    {
      assert DRAFTS[8] == 'c' && |DRAFTS| == 22;
      if i == 4 || i == 5 || i == 6 || i == 7 {
        assert keys[i][7] == ':';
      } else {
        assert keys[i][8] == 'i' || keys[i][8] == 'm' || keys[i][8] == 'n';
      }
    }
  }

  /** The keys that a cleanup of a workspace removes. */
  lemma ListedKeys(key: string)
    ensures key in WORKSPACE_SCOPED_KEYS <==>
            || key == "multica_issue_draft" || key == "multica_issues_view" || key == "multica_issues_scope"
            || key == "multica_my_issues_view" || key == "multica:chat:selectedAgentId"
            || key == "multica:chat:activeSessionId" || key == "multica:chat:drafts"
            || key == "multica:chat:expanded" || key == "multica_navigation"
  {
    var keys := WORKSPACE_SCOPED_KEYS;
    assert key in keys <==> exists i :: 0 <= i < 9 && keys[i] == key;
    assert keys[0] == "multica_issue_draft" && keys[1] == "multica_issues_view" && keys[2] == "multica_issues_scope";
    assert keys[3] == "multica_my_issues_view" && keys[4] == "multica:chat:selectedAgentId";
    assert keys[5] == "multica:chat:activeSessionId" && keys[6] == "multica:chat:drafts";
    assert keys[7] == "multica:chat:expanded" && keys[8] == "multica_navigation";
  }

  // ---------------------------------------------------------------------------
  // Switching, ticking, subscribing
  // ---------------------------------------------------------------------------

  /** A repeated slug queues nothing; a new one queues each kind of task that is not pending, telling before
      rehydrating. Nobody is told, nothing is read or written, before a task runs. */
  lemma SwitchQueues(s: State, slug: Option<string>, wsId: Option<string>)
    ensures var t := Next(s, SetCurrent(slug, wsId));
            && t.slug == slug && t.wsId == wsId
            && t.subscribers == s.subscribers && t.views == s.views
            && t.stores == s.stores && t.loaded == s.loaded && t.disk == s.disk
            && (slug == s.slug ==>
                  t.queue == s.queue && t.pendingNotify == s.pendingNotify && t.pendingRehydrate == s.pendingRehydrate)
            && (slug != s.slug ==> t.pendingNotify && t.pendingRehydrate)
            && (slug != s.slug && !s.pendingNotify && !s.pendingRehydrate ==> t.queue == s.queue + [Notify, Rehydrate])
            && (slug != s.slug && !s.pendingNotify && s.pendingRehydrate ==> t.queue == s.queue + [Notify])
            && (slug != s.slug && s.pendingNotify && !s.pendingRehydrate ==> t.queue == s.queue + [Rehydrate])
            && (slug != s.slug && s.pendingNotify && s.pendingRehydrate ==> t.queue == s.queue)
  {
  }

  /** The task at the front of the queue tells every subscriber, or rehydrates every store, with the slug
      current now, and nobody else; then it is gone and may be queued again. */
  lemma TickInforms(s: State)
    ensures s.queue == [] ==> Next(s, Tick) == s
    ensures s.queue != [] ==>
              var t := Next(s, Tick);
              var told := s.queue[0] == Notify;
              && t.queue == s.queue[1..] && t.slug == s.slug && t.wsId == s.wsId && t.disk == s.disk
              && t.subscribers == s.subscribers && t.stores == s.stores
              && t.pendingNotify == (s.pendingNotify && !told)
              && t.pendingRehydrate == (s.pendingRehydrate && told)
              && (forall f :: f in t.views <==> f in s.views || (told && f in s.subscribers))
              && (forall f :: f in t.views ==> t.views[f] == if told && f in s.subscribers then s.slug else s.views[f])
              && (forall f :: f in t.loaded <==> f in s.loaded || (!told && f in s.stores))
              && (forall f :: f in t.loaded ==> t.loaded[f] == if !told && f in s.stores then s.slug else s.loaded[f])
  {
  }

  /** The function's last subscription event in the run was to subscribe. */
  predicate Listening(ops: seq<Op>, f: int) {
    ops != [] &&
      var last := ops[|ops| - 1];
      if last == Subscribe(f) then true
      else if last == Unsubscribe(f) then false
      else Listening(ops[..|ops| - 1], f)
  }

  /** The subscribers are a set: over every run a function is in it, once, exactly while it is subscribed. */
  lemma {:induction false} SubscribersAreASet(ops: seq<Op>)
    ensures Distinct(Run(ops).subscribers)
    ensures forall f :: f in Run(ops).subscribers <==> Listening(ops, f)
  {
    if ops != [] {
      var front, last := ops[..|ops| - 1], ops[|ops| - 1];
      SubscribersAreASet(front);
      RunSnoc(ops);
      hide Run;
      match last
      case Unsubscribe(f) => WithoutFacts(Run(front).subscribers, f);
      case _ =>
    }
  }

  function Registered(ops: seq<Op>): seq<int> {
    if ops == [] then []
    else Registered(ops[..|ops| - 1]) + if ops[|ops| - 1].Register? then [ops[|ops| - 1].store] else []
  }

  /** The stores to rehydrate are those registered, in order. */
  lemma {:induction false} StoresAreRegistered(ops: seq<Op>)
    ensures Run(ops).stores == Registered(ops)
  {
    if ops != [] {
      StoresAreRegistered(ops[..|ops| - 1]);
      RunSnoc(ops);
      hide Run;
      StoresAfter(Run(ops[..|ops| - 1]), ops[|ops| - 1]);
    }
  }

  lemma StoresAfter(s: State, op: Op)
    ensures Next(s, op).stores == s.stores + if op.Register? then [op.store] else []
  {
  }
}
