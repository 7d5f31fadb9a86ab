/** Caches fed by replayed and reordered deliveries: skip a known item, append, sort
    (task:message in packages/core/realtime/use-realtime-sync.ts, useCreateComment in
    packages/core/issues/mutations.ts, packages/core/issues/timeline-sort.ts). */
module SortedAppend {
  import opened Text
  import opened Timeline

  /** Stable insertion: behind everything that is not greater. */
  function Insert<T>(less: (T, T) -> bool, xs: seq<T>, x: T): seq<T> {
    if xs == [] then [x]
    else if less(x, xs[0]) then [x] + xs
    else [xs[0]] + Insert(less, xs[1..], x)
  }

  /** The stable sort of `Array.prototype.sort`. */
  function Sort<T>(less: (T, T) -> bool, xs: seq<T>): seq<T> {
    if xs == [] then [] else Insert(less, Sort(less, xs[..|xs| - 1]), xs[|xs| - 1])
  }

  predicate Known<T>(same: (T, T) -> bool, xs: seq<T>, x: T) {
    exists i :: 0 <= i < |xs| && same(xs[i], x)
  }

  /** One delivery. */
  function Receive<T>(less: (T, T) -> bool, same: (T, T) -> bool, cache: seq<T>, x: T): seq<T> {
    if Known(same, cache, x) then cache else Sort(less, cache + [x])
  }

  function ReceiveAll<T>(less: (T, T) -> bool, same: (T, T) -> bool, cache: seq<T>, xs: seq<T>): seq<T> {
    if xs == [] then cache
    else Receive(less, same, ReceiveAll(less, same, cache, xs[..|xs| - 1]), xs[|xs| - 1])
  }

  // ---------------------------------------------------------------------------
  // Orders and identity on the items in play
  // ---------------------------------------------------------------------------

  predicate Ascending<T>(less: (T, T) -> bool, xs: seq<T>) {
    forall i, j :: 0 <= i < j < |xs| ==> less(xs[i], xs[j])
  }

  /** On the items of `all`, `less` is a strict total order and `same` is equality: one payload per key. */
  ghost predicate Lawful<T(!new)>(less: (T, T) -> bool, same: (T, T) -> bool, all: set<T>) {
    && (forall a, b :: a in all && b in all ==> (same(a, b) <==> a == b))
    && (forall a, b :: a in all && b in all && a != b ==> (less(a, b) <==> !less(b, a)))
    && (forall a :: a in all ==> !less(a, a))
    && (forall a, b, c :: a in all && b in all && c in all && less(a, b) && less(b, c) ==> less(a, c))
  }

  ghost predicate Within<T(!new)>(xs: seq<T>, all: set<T>) {
    forall x :: x in xs ==> x in all
  }

  lemma {:induction false} InsertAscends<T(!new)>(less: (T, T) -> bool, same: (T, T) -> bool, all: set<T>,
      xs: seq<T>, x: T)
    requires Lawful(less, same, all) && Within(xs, all) && x in all && x !in xs
    requires Ascending(less, xs)
    ensures Ascending(less, Insert(less, xs, x))
    ensures forall y :: y in Insert(less, xs, x) <==> y in xs || y == x
  {
    if xs != [] {
      assert xs == [xs[0]] + xs[1..];
      assert xs[0] in xs;
      if less(x, xs[0]) {
        forall i | 0 <= i < |xs|
          ensures less(x, xs[i])
        {
          assert xs[i] in xs;
          if i > 0 {
            assert less(xs[0], xs[i]);
          }
        }
      } else {
        assert Within(xs[1..], all);
        assert forall i :: 0 <= i < |xs[1..]| ==> less(xs[0], xs[1..][i]);
        InsertAscends(less, same, all, xs[1..], x);
        assert less(xs[0], x);
        var tail := Insert(less, xs[1..], x);
        forall i | 0 <= i < |tail|
          ensures less(xs[0], tail[i])
        {
          assert tail[i] in tail;
        }
      }
    }
  }

  lemma {:induction false} InsertLast<T(!new)>(less: (T, T) -> bool, xs: seq<T>, x: T)
    requires forall y :: y in xs ==> !less(x, y)
    ensures Insert(less, xs, x) == xs + [x]
  {
    if xs != [] {
      assert xs[0] in xs;
      InsertLast(less, xs[1..], x);
      assert xs == [xs[0]] + xs[1..];
    }
  }

  /** Sorting an ascending list changes nothing. */
  lemma {:induction false} SortAscending<T(!new)>(less: (T, T) -> bool, same: (T, T) -> bool, all: set<T>, xs: seq<T>)
    requires Lawful(less, same, all) && Within(xs, all) && Ascending(less, xs)
    ensures Sort(less, xs) == xs
  {
    if xs != [] {
      var front, x := xs[..|xs| - 1], xs[|xs| - 1];
      SortAscending(less, same, all, front);
      assert x in xs;
      forall y | y in front
        ensures !less(x, y)
      {
        var i :| 0 <= i < |front| && front[i] == y;
        assert less(xs[i], xs[|xs| - 1]);
      }
      InsertLast(less, front, x);
    }
  }

  lemma ReceiveAscends<T(!new)>(less: (T, T) -> bool, same: (T, T) -> bool, all: set<T>, cache: seq<T>, x: T)
    requires Lawful(less, same, all) && Within(cache, all) && x in all && Ascending(less, cache)
    ensures Ascending(less, Receive(less, same, cache, x))
    ensures forall y :: y in Receive(less, same, cache, x) <==> y in cache || y == x
  {
    assert forall y :: y in cache ==> y in all;
    if Known(same, cache, x) {
      var i :| 0 <= i < |cache| && same(cache[i], x);
      assert cache[i] in cache;
    } else {
      assert same(x, x) && forall i :: 0 <= i < |cache| ==> !same(cache[i], x);
      SortAscending(less, same, all, cache);
      assert (cache + [x])[..|cache|] == cache;
      InsertAscends(less, same, all, cache, x);
    }
  }

  lemma {:induction false} ReceiveAllAscends<T(!new)>(less: (T, T) -> bool, same: (T, T) -> bool, all: set<T>,
      cache: seq<T>, xs: seq<T>)
    requires Lawful(less, same, all) && Within(cache, all) && Within(xs, all) && Ascending(less, cache)
    ensures var r := ReceiveAll(less, same, cache, xs);
      Ascending(less, r) && Within(r, all) && forall y :: y in r <==> y in cache || y in xs
  {
    hide Lawful, Receive, Ascending;
    if xs != [] {
      var front, x := xs[..|xs| - 1], xs[|xs| - 1];
      assert xs == front + [x];
      ReceiveAllAscends(less, same, all, cache, front);
      ReceiveAscends(less, same, all, ReceiveAll(less, same, cache, front), x);
    }
  }

  /** Two ascending lists of the same items are equal. */
  lemma {:induction false} AscendingUnique<T(!new)>(less: (T, T) -> bool, same: (T, T) -> bool, all: set<T>,
      a: seq<T>, b: seq<T>)
    requires Lawful(less, same, all) && Within(a, all) && Within(b, all)
    requires Ascending(less, a) && Ascending(less, b)
    requires forall x :: x in a <==> x in b
    ensures a == b
  {
    assert a != [] ==> a[0] in a;
    assert b != [] ==> b[0] in b;
    if a != [] && b != [] {
      LeastFirst(less, same, all, a, b[0]);
      LeastFirst(less, same, all, b, a[0]);
      assert a[0] == b[0];
      TailMembers(less, same, all, a);
      TailMembers(less, same, all, b);
      AscendingUnique(less, same, all, a[1..], b[1..]);
      assert a == [a[0]] + a[1..] && b == [b[0]] + b[1..];
    }
  }

  lemma LeastFirst<T(!new)>(less: (T, T) -> bool, same: (T, T) -> bool, all: set<T>, a: seq<T>, x: T)
    requires Lawful(less, same, all) && Within(a, all) && Ascending(less, a) && a != [] && x in a
    ensures a[0] in all && x in all && (a[0] == x || less(a[0], x))
  {
    assert a[0] in a;
    var i :| 0 <= i < |a| && a[i] == x;
  }

  lemma TailMembers<T(!new)>(less: (T, T) -> bool, same: (T, T) -> bool, all: set<T>, a: seq<T>)
    requires Lawful(less, same, all) && Within(a, all) && Ascending(less, a) && a != []
    ensures Within(a[1..], all) && Ascending(less, a[1..])
    ensures forall x :: x in a[1..] <==> x in a && x != a[0]
  {
    assert a == [a[0]] + a[1..];
    assert a[0] in a;
    assert forall i :: 0 <= i < |a[1..]| ==> less(a[0], a[1..][i]);
  }

  /** Whatever the order and repetition of the deliveries, the same items give the same cache. */
  lemma DeliveriesConverge<T(!new)>(less: (T, T) -> bool, same: (T, T) -> bool, all: set<T>, cache: seq<T>,
      xs: seq<T>, ys: seq<T>)
    requires Lawful(less, same, all) && Within(cache, all) && Within(xs, all) && Ascending(less, cache)
    requires forall x :: x in xs <==> x in ys
    ensures ReceiveAll(less, same, cache, xs) == ReceiveAll(less, same, cache, ys)
    ensures Ascending(less, ReceiveAll(less, same, cache, xs))
  {
    hide Lawful, Ascending;
    ReceiveAllAscends(less, same, all, cache, xs);
    ReceiveAllAscends(less, same, all, cache, ys);
    AscendingUnique(less, same, all, ReceiveAll(less, same, cache, xs), ReceiveAll(less, same, cache, ys));
  }

  // ---------------------------------------------------------------------------
  // Task messages
  // ---------------------------------------------------------------------------

  datatype TaskMessage = TaskMessage(taskId: string, number: int, payload: string)

  const EARLIER: (TaskMessage, TaskMessage) -> bool := (a: TaskMessage, b: TaskMessage) => a.number < b.number
  const SAME_NUMBER: (TaskMessage, TaskMessage) -> bool := (a: TaskMessage, b: TaskMessage) => a.number == b.number

  class TaskMessages {
    var byTask: map<string, seq<TaskMessage>>

    constructor ()
      ensures byTask == map[]
    {
      byTask := map[];
    }

    function Messages(taskId: string): seq<TaskMessage>
      reads this
    {
      if taskId in byTask then byTask[taskId] else []
    }

    method OnTaskMessage(m: TaskMessage)
      modifies this
      ensures byTask == old(byTask)[m.taskId := Receive(EARLIER, SAME_NUMBER, old(Messages(m.taskId)), m)]
    {
      var old_ := Messages(m.taskId);
      var known := false;
      for i := 0 to |old_|
        invariant known <==> exists j :: 0 <= j < i && SAME_NUMBER(old_[j], m)
      {
        known := known || old_[i].number == m.number;
      }
      byTask := byTask[m.taskId := if known then old_ else Sort(EARLIER, old_ + [m])];
    }
  }

  /** One payload per number. */
  ghost predicate Consistent(xs: seq<TaskMessage>) {
    forall a, b :: a in xs && b in xs && a.number == b.number ==> a == b
  }

  /** The live list of a task depends only on which messages arrived, and is strictly increasing. */
  lemma TaskMessagesConverge(xs: seq<TaskMessage>, ys: seq<TaskMessage>)
    requires Consistent(xs) && forall m :: m in xs <==> m in ys
    ensures var list := ReceiveAll(EARLIER, SAME_NUMBER, [], xs);
      && list == ReceiveAll(EARLIER, SAME_NUMBER, [], ys)
      && (forall i, j :: 0 <= i < j < |list| ==> list[i].number < list[j].number)
      && (forall m :: m in list <==> m in xs)
  {
    var all := set m | m in xs;
    assert Lawful(EARLIER, SAME_NUMBER, all);
    DeliveriesConverge(EARLIER, SAME_NUMBER, all, [], xs, ys);
    ReceiveAllAscends(EARLIER, SAME_NUMBER, all, [], xs);
    var list := ReceiveAll(EARLIER, SAME_NUMBER, [], xs);
    assert forall i, j :: 0 <= i < j < |list| ==> EARLIER(list[i], list[j]);
  }

  // ---------------------------------------------------------------------------
  // The timeline
  // ---------------------------------------------------------------------------

  /** `a < b` on strings. */
  predicate Less(a: string, b: string) {
    if b == "" then false
    else if a == "" then true
    else if a[0] != b[0] then a[0] < b[0]
    else Less(a[1..], b[1..])
  }

  lemma {:induction false} LessTotal(a: string, b: string)
    ensures !(Less(a, b) && Less(b, a))
    ensures a == b || Less(a, b) || Less(b, a)
    ensures !Less(a, a)
  {
    if a != "" {
      LessTotal(a[1..], if b == "" then "" else b[1..]);
      assert a == [a[0]] + a[1..];
      assert b != "" ==> b == [b[0]] + b[1..];
    }
  }

  lemma {:induction false} LessTransitive(a: string, b: string, c: string)
    requires Less(a, b) && Less(b, c)
    ensures Less(a, c)
  {
    if a != "" && a[0] == b[0] == c[0] {
      LessTransitive(a[1..], b[1..], c[1..]);
    }
  }

  const CHRONOLOGICAL: (Entry, Entry) -> bool :=
    (a: Entry, b: Entry) => a.createdAt < b.createdAt || (a.createdAt == b.createdAt && Less(a.id, b.id))
  const SAME_ID: (Entry, Entry) -> bool := (a: Entry, b: Entry) => a.id == b.id

  method SortTimelineEntriesAsc(a: array<Entry>)
    modifies a
    ensures multiset(a[..]) == multiset(old(a[..]))
    ensures forall i, j :: 0 <= i < j < a.Length ==> !CHRONOLOGICAL(a[j], a[i])
    ensures a[..] == Sort(CHRONOLOGICAL, old(a[..]))
  {
    hide Sort;
    TimelineSorts(a[..]);
    var sorted := Sort(CHRONOLOGICAL, a[..]);
    for i := 0 to a.Length
      invariant a[..i] == sorted[..i]
    {
      a[i] := sorted[i];
    }
    assert a[..] == a[..a.Length] == sorted[..a.Length] == sorted;
  }

  /** The sorted timeline has the same entries, and none stands in front of an earlier one. */
  lemma TimelineSorts(xs: seq<Entry>)
    ensures var sorted := Sort(CHRONOLOGICAL, xs);
            && |sorted| == |xs| && multiset(sorted) == multiset(xs)
            && forall i, j :: 0 <= i < j < |sorted| ==> !CHRONOLOGICAL(sorted[j], sorted[i])
  {
    SortPermutes(CHRONOLOGICAL, xs);
    ChronologyIsWeak();
    SortOrders(CHRONOLOGICAL, xs);
  }

  lemma {:induction false} InsertPermutes<T>(less: (T, T) -> bool, xs: seq<T>, x: T)
    ensures multiset(Insert(less, xs, x)) == multiset(xs) + multiset{x}
    ensures |Insert(less, xs, x)| == |xs| + 1
  {
    if xs != [] {
      InsertPermutes(less, xs[1..], x);
      assert xs == [xs[0]] + xs[1..];
    }
  }

  /** Sorting neither loses nor invents anything, whatever the comparison. */
  lemma {:induction false} SortPermutes<T>(less: (T, T) -> bool, xs: seq<T>)
    ensures multiset(Sort(less, xs)) == multiset(xs)
    ensures |Sort(less, xs)| == |xs|
  {
    if xs != [] {
      var front, x := xs[..|xs| - 1], xs[|xs| - 1];
      SortPermutes(less, front);
      InsertPermutes(less, Sort(less, front), x);
      assert xs == front + [x];
    }
  }

  /** What a comparator must be for a sort to order: asymmetric, with "not greater" transitive. */
  ghost predicate Weak<T(!new)>(less: (T, T) -> bool) {
    && (forall a, b :: less(a, b) ==> !less(b, a))
    && (forall a, b, c :: !less(b, a) && !less(c, b) ==> !less(c, a))
  }

  /** Nothing stands in front of something less. */
  ghost predicate Ordered<T>(less: (T, T) -> bool, xs: seq<T>) {
    forall i, j :: 0 <= i < j < |xs| ==> !less(xs[j], xs[i])
  }

  lemma OrderedCons<T>(less: (T, T) -> bool, x: T, xs: seq<T>)
    requires Ordered(less, xs) && forall y :: y in xs ==> !less(y, x)
    ensures Ordered(less, [x] + xs)
  {
  }

  lemma {:induction false} InsertOrders<T(!new)>(less: (T, T) -> bool, xs: seq<T>, x: T)
    requires Weak(less) && Ordered(less, xs)
    ensures Ordered(less, Insert(less, xs, x))
  {
    if xs != [] {
      var head, tail := xs[0], xs[1..];
      assert xs == [head] + tail;
      if less(x, head) {
        forall y | y in xs
          ensures !less(y, x)
        {
          var k :| 0 <= k < |xs| && xs[k] == y;
        }
        OrderedCons(less, x, xs);
      } else {
        InsertOrders(less, tail, x);
        forall y | y in Insert(less, tail, x)
          ensures !less(y, head)
        {
          InsertPermutes(less, tail, x);
          assert y in multiset(Insert(less, tail, x));
          if y in tail {
            var k :| 0 <= k < |tail| && xs[k + 1] == y;
          }
        }
        OrderedCons(less, head, Insert(less, tail, x));
      }
    }
  }

  lemma {:induction false} SortOrders<T(!new)>(less: (T, T) -> bool, xs: seq<T>)
    requires Weak(less)
    ensures Ordered(less, Sort(less, xs))
  {
    hide Weak, Ordered, Insert;
    if xs == [] {
      OrderedNil(less);
    } else {
      SortOrders(less, xs[..|xs| - 1]);
      InsertOrders(less, Sort(less, xs[..|xs| - 1]), xs[|xs| - 1]);
    }
  }

  lemma OrderedNil<T>(less: (T, T) -> bool)
    ensures Ordered(less, [])
  {
  }

  /** Creation time and then id compare like that on all entries. */
  lemma ChronologyIsWeak()
    ensures Weak(CHRONOLOGICAL)
  {
    forall a, b | CHRONOLOGICAL(a, b)
      ensures !CHRONOLOGICAL(b, a)
    {
      LessTotal(a.id, b.id);
    }
    forall a, b, c | !CHRONOLOGICAL(b, a) && !CHRONOLOGICAL(c, b)
      ensures !CHRONOLOGICAL(c, a)
    {
      LessTotal(a.id, b.id);
      LessTotal(b.id, c.id);
      LessTotal(a.id, c.id);
      if Less(a.id, b.id) && Less(b.id, c.id) {
        LessTransitive(a.id, b.id, c.id);
      }
    }
  }

  /** onSuccess of a created comment: None is a timeline that is not loaded. */
  method AppendComment(timeline: Option<seq<Entry>>, entry: Entry) returns (next: seq<Entry>)
    ensures next == if timeline.None? then [entry] else Receive(CHRONOLOGICAL, SAME_ID, timeline.value, entry)
  {
    if timeline.None? {
      return [entry];
    }
    var known := false;
    for i := 0 to |timeline.value|
      invariant known <==> exists j :: 0 <= j < i && SAME_ID(timeline.value[j], entry)
    {
      known := known || timeline.value[i].id == entry.id;
    }
    if known {
      return timeline.value;
    }
    var s := timeline.value + [entry];
    var a := new Entry[|s|](i requires 0 <= i < |s| => s[i]);
    assert a[..] == s;
    SortTimelineEntriesAsc(a);
    return a[..];
  }

  ghost predicate DistinctIds(all: set<Entry>) {
    forall a, b :: a in all && b in all && a.id == b.id ==> a == b
  }

  lemma ChronologyIsLawful(all: set<Entry>)
    requires DistinctIds(all)
    ensures Lawful(CHRONOLOGICAL, SAME_ID, all)
  {
    forall a, b | a in all && b in all && a != b
      ensures CHRONOLOGICAL(a, b) <==> !CHRONOLOGICAL(b, a)
    {
      LessTotal(a.id, b.id);
    }
    forall a | a in all
      ensures !CHRONOLOGICAL(a, a)
    {
      LessTotal(a.id, a.id);
    }
    forall a, b, c | a in all && b in all && c in all && CHRONOLOGICAL(a, b) && CHRONOLOGICAL(b, c)
      ensures CHRONOLOGICAL(a, c)
    {
      if a.createdAt == b.createdAt == c.createdAt {
        LessTransitive(a.id, b.id, c.id);
      }
    }
  }

  /** Mutation results and broadcasts may arrive in any order, each any number of times. */
  lemma TimelineConverges(base: seq<Entry>, xs: seq<Entry>, ys: seq<Entry>)
    requires Ascending(CHRONOLOGICAL, base) && DistinctIds(set e | e in base + xs)
    requires forall e :: e in xs <==> e in ys
    ensures ReceiveAll(CHRONOLOGICAL, SAME_ID, base, xs) == ReceiveAll(CHRONOLOGICAL, SAME_ID, base, ys)
    ensures Ascending(CHRONOLOGICAL, ReceiveAll(CHRONOLOGICAL, SAME_ID, base, xs))
  {
    hide Lawful;
    var all := set e | e in base + xs;
    ChronologyIsLawful(all);
    DeliveriesConverge(CHRONOLOGICAL, SAME_ID, all, base, xs, ys);
  }
}
