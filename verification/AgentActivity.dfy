/** The thirty-day activity series of an agent and its roll-ups
    (packages/core/agents/use-agent-activity.ts). Local midnight is a parameter. */
module AgentActivity {
  import opened Text

  const DAYS: nat := 30
  const DAY_MS: int := 24 * 60 * 60 * 1000

  /** `at` is None when the server's date does not parse. */
  datatype Bucket = Bucket(agentId: string, at: Option<int>, tasks: int, failed: int)

  datatype Slot = Slot(total: int, failed: int)

  datatype Agent = Agent(id: string, createdAt: Option<int>)

  datatype Activity = Activity(buckets: seq<Slot>, daysSinceCreated: nat)

  /** Whole days between the bucket's local midnight and today's, rounded down. */
  function DaysAgo(at: int, startOfDay: int -> int, now: int): int {
    (startOfDay(now) - startOfDay(at)) / DAY_MS
  }

  predicate InWindow(b: Bucket, startOfDay: int -> int, now: int, lo: int, hi: int) {
    b.at.Some? && lo <= DaysAgo(b.at.value, startOfDay, now) < hi
  }

  /** The buckets from lo to hi days ago, added up. */
  function Sum(buckets: seq<Bucket>, startOfDay: int -> int, now: int, lo: int, hi: int): Slot {
    if buckets == [] then Slot(0, 0)
    else
      var rest, b := Sum(buckets[..|buckets| - 1], startOfDay, now, lo, hi), buckets[|buckets| - 1];
      if InWindow(b, startOfDay, now, lo, hi) then Slot(rest.total + b.tasks, rest.failed + b.failed) else rest
  }

  /** Slot k of the series shows the day DAYS - 1 - k days ago. */
  ghost predicate IsSeries(series: seq<Slot>, buckets: seq<Bucket>, startOfDay: int -> int, now: int) {
    && |series| == DAYS
    && forall k :: 0 <= k < DAYS ==> series[k] == Sum(buckets, startOfDay, now, DAYS - 1 - k, DAYS - k)
  }

  method DeriveAgentActivity(buckets: seq<Bucket>, createdAt: Option<int>, startOfDay: int -> int, now: int)
    returns (a: Activity)
    ensures IsSeries(a.buckets, buckets, startOfDay, now)
    ensures a.daysSinceCreated == DaysSinceCreated(createdAt, now)
  {
    var slots := new Slot[DAYS](_ => Slot(0, 0));
    for i := 0 to |buckets|
      invariant IsSeries(slots[..], buckets[..i], startOfDay, now)
    {
      assert buckets[..i + 1][..i] == buckets[..i];
      var b := buckets[i];
      if b.at.Some? {
        var daysAgo := (startOfDay(now) - startOfDay(b.at.value)) / DAY_MS;
        if 0 <= daysAgo < DAYS {
          var slot := DAYS - 1 - daysAgo;
          slots[slot] := Slot(slots[slot].total + b.tasks, slots[slot].failed + b.failed);
        }
      }
    }
    assert buckets[..|buckets|] == buckets;
    a := Activity(slots[..], DaysSinceCreated(createdAt, now));
  }

  function DaysSinceCreated(createdAt: Option<int>, now: int): (d: nat)
    ensures d <= 30
    ensures createdAt.None? ==> d == 30
    ensures createdAt.Some? ==>
              forall k: nat :: k <= 30 ==> (k <= d <==> k == 0 || now - createdAt.value >= k * 86400000)
  {
    if createdAt.None? then DAYS
    else
      var days := (now - createdAt.value) / DAY_MS;
      if days < 0 then 0 else if days > DAYS then DAYS else days
  }

  function Total(slots: seq<Slot>): Slot {
    if slots == [] then Slot(0, 0)
    else
      var rest, s := Total(slots[..|slots| - 1]), slots[|slots| - 1];
      Slot(rest.total + s.total, rest.failed + s.failed)
  }

  datatype Summary = Summary(buckets: seq<Slot>, totalRuns: int, totalFailed: int, windowDays: int)

  /** The last days of a series and their totals; a window of no days, or of an agent without activity, is
      empty. The asked-for window is passed on as it was, not clamped. */
  method SummarizeActivityWindow(activity: Option<seq<Slot>>, windowDays: int) returns (summary: Summary)
    ensures activity.None? ==> summary == Summary([], 0, 0, windowDays)
    ensures activity.Some? ==>
              summary.buckets == activity.value[|activity.value| - Clamp(windowDays, |activity.value|)..]
    ensures Slot(summary.totalRuns, summary.totalFailed) == Total(summary.buckets)
    ensures summary.windowDays == windowDays
  {
    if activity.None? {
      return Summary([], 0, 0, windowDays);
    }
    var series := activity.value;
    var safeWindow := Clamp(windowDays, |series|);
    var slice := if safeWindow == 0 then [] else series[|series| - safeWindow..];
    var totalRuns, totalFailed := 0, 0;
    for i := 0 to |slice|
      invariant Slot(totalRuns, totalFailed) == Total(slice[..i])
    {
      assert slice[..i + 1][..i] == slice[..i];
      totalRuns, totalFailed := totalRuns + slice[i].total, totalFailed + slice[i].failed;
    }
    assert slice[..|slice|] == slice;
    return Summary(slice, totalRuns, totalFailed, windowDays);
  }

  function Clamp(n: int, most: nat): (r: nat)
    ensures r <= most
    ensures n <= 0 ==> r == 0
    ensures n >= most ==> r == most
    ensures 0 <= n <= most ==> r == n
  {
    if n < 0 then 0 else if n > most then most else n
  }

  lemma {:induction false} SumSplits(buckets: seq<Bucket>, startOfDay: int -> int, now: int, lo: int, mid: int, hi: int)
    requires lo <= mid <= hi
    ensures Sum(buckets, startOfDay, now, lo, hi).total
         == Sum(buckets, startOfDay, now, lo, mid).total + Sum(buckets, startOfDay, now, mid, hi).total
    ensures Sum(buckets, startOfDay, now, lo, hi).failed
         == Sum(buckets, startOfDay, now, lo, mid).failed + Sum(buckets, startOfDay, now, mid, hi).failed
  {
    hide DaysAgo;
    if buckets != [] {
      SumSplits(buckets[..|buckets| - 1], startOfDay, now, lo, mid, hi);
    }
  }

  lemma {:induction false} NoDays(buckets: seq<Bucket>, startOfDay: int -> int, now: int, day: int)
    ensures Sum(buckets, startOfDay, now, day, day) == Slot(0, 0)
  {
    if buckets != [] {
      NoDays(buckets[..|buckets| - 1], startOfDay, now, day);
    }
  }

  lemma {:induction false} SliceTotal(series: seq<Slot>, buckets: seq<Bucket>, startOfDay: int -> int, now: int,
      first: nat, end: nat)
    requires IsSeries(series, buckets, startOfDay, now) && first <= end <= DAYS
    ensures Total(series[first..end]) == Sum(buckets, startOfDay, now, DAYS - end, DAYS - first)
    decreases end
  {
    hide Sum;
    if first == end {
      NoDays(buckets, startOfDay, now, DAYS - end);
    } else {
      SliceTotal(series, buckets, startOfDay, now, first, end - 1);
      assert series[first..end][..end - first - 1] == series[first..end - 1];
      SumSplits(buckets, startOfDay, now, DAYS - end, DAYS - end + 1, DAYS - first);
    }
  }

  /** The totals shown for a window are the tasks of exactly the days it spans: nothing in the window is lost
      or counted twice, and nothing outside it or without a date is counted. */
  lemma WindowTotals(series: seq<Slot>, buckets: seq<Bucket>, startOfDay: int -> int, now: int, windowDays: int)
    requires IsSeries(series, buckets, startOfDay, now)
    ensures Total(series[|series| - Clamp(windowDays, |series|)..])
        == Sum(buckets, startOfDay, now, 0, Clamp(windowDays, DAYS))
  {
    var w := Clamp(windowDays, DAYS);
    SliceTotal(series, buckets, startOfDay, now, DAYS - w, DAYS);
    assert series[DAYS - w..DAYS] == series[DAYS - w..];
  }

  // ---------------------------------------------------------------------------
  // Days that are not twenty-four hours long
  // ---------------------------------------------------------------------------

  /** Local midnights, today's first, going back day by day. */
  ghost predicate Midnights(ms: seq<int>, startOfDay: int -> int, now: int) {
    ms != [] && ms[0] == startOfDay(now) && forall i :: 0 < i < |ms| ==> ms[i] < ms[i - 1]
  }

  /** The length of the day i + 1 days back, at position i. */
  function DayLengths(ms: seq<int>): (r: seq<int>)
    requires ms != []
    ensures |r| == |ms| - 1
  {
    seq(|ms| - 1, i requires 0 <= i < |ms| - 1 => ms[i] - ms[i + 1])
  }

  function Span(lengths: seq<int>): int {
    if lengths == [] then 0 else Span(lengths[..|lengths| - 1]) + lengths[|lengths| - 1]
  }

  lemma {:induction false} SpanOfDays(ms: seq<int>, k: nat)
    requires k < |ms|
    ensures Span(DayLengths(ms)[..k]) == ms[0] - ms[k]
  {
    if k > 0 {
      SpanOfDays(ms, k - 1);
      assert DayLengths(ms)[..k][..k - 1] == DayLengths(ms)[..k - 1];
    }
  }

  /** The day k days back is drawn in its own slot if and only if the k days since then are together at least k
      and less than k + 1 times twenty-four hours long. */
  lemma OwnSlotIff(ms: seq<int>, startOfDay: int -> int, now: int, at: int, k: nat)
    requires Midnights(ms, startOfDay, now) && k < |ms| && startOfDay(at) == ms[k]
    ensures DaysAgo(at, startOfDay, now) == k <==> k * 86400000 <= Span(DayLengths(ms)[..k]) < (k + 1) * 86400000
  {
    SpanOfDays(ms, k);
  }

  /** Two days are drawn on top of each other if and only if no multiple of twenty-four hours lies between their
      midnights as measured back from today. */
  lemma SharedSlotIff(ms: seq<int>, startOfDay: int -> int, now: int, at: int, earlier: int, j: nat, k: nat)
    requires Midnights(ms, startOfDay, now) && j < k < |ms| && startOfDay(at) == ms[j] && startOfDay(earlier) == ms[k]
    ensures DaysAgo(at, startOfDay, now) == DaysAgo(earlier, startOfDay, now) <==>
            forall t: int :: Span(DayLengths(ms)[..j]) < Times(t) ==> Span(DayLengths(ms)[..k]) < Times(t)
  {
    SpanOfDays(ms, j);
    SpanOfDays(ms, k);
    Decreasing(ms, j, k);
    NoMultipleBetween(ms[0] - ms[j], ms[0] - ms[k]);
  }

  function Times(t: int): int {
    t * 86400000
  }

  lemma NoMultipleBetween(a: int, b: int)
    requires a <= b
    ensures a / DAY_MS == b / DAY_MS <==> forall t: int :: a < Times(t) ==> b < Times(t)
  {
    var next := a / DAY_MS + 1;
    assert a < Times(next);
    if a / DAY_MS == b / DAY_MS {
      forall t: int | a < Times(t)
        ensures b < Times(t)
      {
        assert t >= next;
      }
    } else {
      assert Times(next) <= b;
    }
  }

  lemma {:induction false} Decreasing(ms: seq<int>, j: nat, k: nat)
    requires (forall i :: 0 < i < |ms| ==> ms[i] < ms[i - 1]) && j <= k < |ms|
    ensures ms[k] <= ms[j]
  {
    if j < k {
      Decreasing(ms, j, k - 1);
    }
  }

  /** One short day, `shift` shorter than twenty-four hours, moves every day from it back by one slot: it lies on the
      day after it. One long day, as the clock goes back, moves nothing. */
  lemma ClockChange(ms: seq<int>, startOfDay: int -> int, now: int, changed: nat, shift: int, at: int, k: nat)
    requires Midnights(ms, startOfDay, now) && k < |ms| && startOfDay(at) == ms[k]
    requires 0 < changed < |ms| && -DAY_MS < shift < DAY_MS
    requires forall i :: 0 <= i < |ms| - 1 ==>
               DayLengths(ms)[i] == if i == changed - 1 then DAY_MS - shift else DAY_MS
    ensures DaysAgo(at, startOfDay, now) == if k >= changed && shift > 0 then k - 1 else k
  {
    SpanOfDays(ms, k);
    SpanAround(DayLengths(ms), changed, shift, k);
  }

  lemma {:induction false} SpanAround(lengths: seq<int>, changed: nat, shift: int, k: nat)
    requires 0 < changed <= |lengths| && k <= |lengths|
    requires forall i :: 0 <= i < |lengths| ==> lengths[i] == if i == changed - 1 then DAY_MS - shift else DAY_MS
    ensures Span(lengths[..k]) == k * DAY_MS - if k >= changed then shift else 0
  {
    if k > 0 {
      SpanAround(lengths, changed, shift, k - 1);
      assert lengths[..k][..k - 1] == lengths[..k - 1];
    }
  }

  // ---------------------------------------------------------------------------
  // All agents at once
  // ---------------------------------------------------------------------------

  function Mine(buckets: seq<Bucket>, id: string): seq<Bucket> {
    if buckets == [] then []
    else
      var last := buckets[|buckets| - 1];
      Mine(buckets[..|buckets| - 1], id) + if last.agentId == id then [last] else []
  }

  method GroupBuckets(buckets: seq<Bucket>) returns (byAgent: map<string, seq<Bucket>>)
    ensures forall id :: Mine(buckets, id) == if id in byAgent then byAgent[id] else []
  {
    byAgent := map[];
    for i := 0 to |buckets|
      invariant forall id :: Mine(buckets[..i], id) == if id in byAgent then byAgent[id] else []
    {
      assert buckets[..i + 1][..i] == buckets[..i];
      var b := buckets[i];
      byAgent := byAgent[b.agentId := (if b.agentId in byAgent then byAgent[b.agentId] else []) + [b]];
    }
    assert buckets[..|buckets|] == buckets;
  }

  /** Of several agents with one id the last counts. */
  function CreatedAt(agents: seq<Agent>, id: string): Option<int> {
    if agents == [] then None
    else if agents[|agents| - 1].id == id then agents[|agents| - 1].createdAt
    else CreatedAt(agents[..|agents| - 1], id)
  }

  ghost predicate IsActivityOf(
    a: Activity, id: string, agents: seq<Agent>, buckets: seq<Bucket>, startOfDay: int -> int, now: int)
  {
    && IsSeries(a.buckets, Mine(buckets, id), startOfDay, now)
    && a.daysSinceCreated == DaysSinceCreated(CreatedAt(agents, id), now)
  }

  method BuildActivityMap(agents: seq<Agent>, buckets: seq<Bucket>, startOfDay: int -> int, now: int)
    returns (out: map<string, Activity>)
    ensures forall id :: id in out <==> exists i :: 0 <= i < |agents| && agents[i].id == id
    ensures forall id :: id in out ==> IsActivityOf(out[id], id, agents, buckets, startOfDay, now)
  {
    hide IsSeries, Mine, DaysSinceCreated;
    var byAgent := GroupBuckets(buckets);
    out := map[];
    for i := 0 to |agents|
      invariant forall id :: id in out <==> exists j :: 0 <= j < i && agents[j].id == id
      invariant forall id :: id in out ==> IsActivityOf(out[id], id, agents[..i], buckets, startOfDay, now)
    {
      assert agents[..i + 1][..i] == agents[..i];
      var agent := agents[i];
      var mine := if agent.id in byAgent then byAgent[agent.id] else [];
      var activity := DeriveAgentActivity(mine, agent.createdAt, startOfDay, now);
      out := out[agent.id := activity];
    }
    assert agents[..|agents|] == agents;
  }

  // ---------------------------------------------------------------------------
  // The series, one row at a time
  // ---------------------------------------------------------------------------

  /** Slot k is for what lies at least 29 - k and less than 30 - k times twenty-four hours before today's midnight. */
  predicate DrawnIn(b: Bucket, startOfDay: int -> int, now: int, k: int) {
    b.at.Some? &&
      var back := startOfDay(now) - startOfDay(b.at.value);
      (29 - k) * 86400000 <= back < (30 - k) * 86400000
  }

  lemma SumSnoc(buckets: seq<Bucket>, b: Bucket, startOfDay: int -> int, now: int, k: int)
    ensures Sum([], startOfDay, now, 29 - k, 30 - k) == Slot(0, 0)
    ensures var before := Sum(buckets, startOfDay, now, 29 - k, 30 - k);
            Sum(buckets + [b], startOfDay, now, 29 - k, 30 - k) ==
            if DrawnIn(b, startOfDay, now, k) then Slot(before.total + b.tasks, before.failed + b.failed) else before
  {
    assert (buckets + [b])[..|buckets|] == buckets;
    if b.at.Some? {
      FloorIff(startOfDay(now) - startOfDay(b.at.value), 29 - k);
    }
  }

  lemma FloorIff(back: int, days: int)
    ensures back / 86400000 == days <==> days * 86400000 <= back < (days + 1) * 86400000
  {
  }

  /** The series has thirty slots, all empty without rows; one more row adds its counts to the slot it is drawn in,
      if it has a date and that slot is one of the thirty, and changes nothing else. */
  lemma SeriesAddsRow(before: seq<Slot>, after: seq<Slot>, buckets: seq<Bucket>, b: Bucket, startOfDay: int -> int,
      now: int)
    requires IsSeries(before, buckets, startOfDay, now) && IsSeries(after, buckets + [b], startOfDay, now)
    ensures |before| == |after| == 30
    ensures buckets == [] ==> forall k :: 0 <= k < 30 ==> before[k] == Slot(0, 0)
    ensures forall k :: 0 <= k < 30 ==>
              after[k] == if DrawnIn(b, startOfDay, now, k)
                          then Slot(before[k].total + b.tasks, before[k].failed + b.failed) else before[k]
  {
    hide Sum, DrawnIn;
    forall k | 0 <= k < 30
      ensures buckets == [] ==> before[k] == Slot(0, 0)
      ensures after[k] == if DrawnIn(b, startOfDay, now, k)
                          then Slot(before[k].total + b.tasks, before[k].failed + b.failed) else before[k]
    {
      SumSnoc(buckets, b, startOfDay, now, k);
    }
  }

  /** An agent's rows are those that carry its id, each as often as it was given. */
  lemma {:induction false} MineAre(buckets: seq<Bucket>, id: string, b: Bucket)
    ensures multiset(Mine(buckets, id))[b] == if b.agentId == id then multiset(buckets)[b] else 0
  {
    if buckets != [] {
      var front, last := buckets[..|buckets| - 1], buckets[|buckets| - 1];
      MineAre(front, id, b);
      assert buckets == front + [last];
    }
  }

  /** The age shown for an id is that of its last agent. */
  lemma {:induction false} CreatedAtIs(agents: seq<Agent>, id: string, k: nat)
    requires k < |agents| && agents[k].id == id && forall j :: k < j < |agents| ==> agents[j].id != id
    ensures CreatedAt(agents, id) == agents[k].createdAt
  {
    if k < |agents| - 1 {
      CreatedAtIs(agents[..|agents| - 1], id, k);
    }
  }
}
