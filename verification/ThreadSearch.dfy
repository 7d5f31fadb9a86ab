/** When the breadth-first search for replies ends, whatever ids and parents the timeline carries
    (apps/mobile/lib/timeline-thread.ts). */
module ThreadSearch {
  import opened Sequences
  import opened Timeline
  import opened TimelineThread
  import opened ThreadConservation

  /** The ids of the replies to one id. */
  function Replies(es: seq<Entry>, id: string): seq<string> {
    Ids(Kids(es, CommentIds(es), id))
  }

  function AllReplies(es: seq<Entry>, ids: seq<string>): seq<string> {
    if ids == [] then [] else AllReplies(es, ids[..|ids| - 1]) + Replies(es, ids[|ids| - 1])
  }

  /** The ids k replies below an id, as often as the search meets them. */
  function Level(es: seq<Entry>, id: string, k: nat): seq<string> {
    if k == 0 then [id] else AllReplies(es, Level(es, id, k - 1))
  }

  /** An id below `root`, or `root` itself, that lies below itself. */
  ghost predicate LeadsToCycle(es: seq<Entry>, root: string) {
    exists x, j: nat, m: nat :: OnCycle(es, root, x, j, m)
  }

  ghost predicate OnCycle(es: seq<Entry>, root: string, x: string, j: nat, m: nat) {
    m > 0 && x in Level(es, root, j) && x in Level(es, x, m)
  }

  lemma {:induction false} AllRepliesIn(es: seq<Entry>, ids: seq<string>, y: string)
    ensures y in AllReplies(es, ids) <==> exists p :: p in ids && y in Replies(es, p)
  {
    hide Replies;
    if ids != [] {
      var front, last := ids[..|ids| - 1], ids[|ids| - 1];
      AllRepliesIn(es, front, y);
      assert ids == front + [last];
    }
  }

  lemma {:induction false} AllRepliesAppend(es: seq<Entry>, a: seq<string>, b: seq<string>)
    ensures AllReplies(es, a + b) == AllReplies(es, a) + AllReplies(es, b)
  {
    hide Replies;
    if b == [] {
      assert a + b == a;
    } else {
      assert (a + b)[..|a + b| - 1] == a + b[..|b| - 1];
      AllRepliesAppend(es, a, b[..|b| - 1]);
    }
  }

  lemma AllRepliesOfOne(es: seq<Entry>, id: string)
    ensures AllReplies(es, [id]) == Replies(es, id)
  {
    hide Replies;
    assert [id][..0] == [];
    assert AllReplies(es, [id]) == [] + Replies(es, id);
  }

  /** Below an id one step further means below one of its replies. */
  lemma {:induction false} FirstStep(es: seq<Entry>, h: string, x: string, k: nat)
    ensures x in Level(es, h, k + 1) <==> exists y :: y in Replies(es, h) && x in Level(es, y, k)
    decreases k
  {
    hide Replies, AllReplies;
    assert Level(es, h, k + 1) == AllReplies(es, Level(es, h, k));
    if k == 0 {
      AllRepliesOfOne(es, h);
      assert Level(es, h, 0) == [h];
      assert x in Level(es, x, 0);
    } else {
      AllRepliesIn(es, Level(es, h, k), x);
      forall y
        ensures x in Level(es, y, k) <==> exists p :: p in Level(es, y, k - 1) && x in Replies(es, p)
      {
        AllRepliesIn(es, Level(es, y, k - 1), x);
      }
      forall p
        ensures p in Level(es, h, k) <==> exists y :: y in Replies(es, h) && p in Level(es, y, k - 1)
      {
        FirstStep(es, h, p, k - 1);
      }
      hide Level;
    }
  }

  // ---------------------------------------------------------------------------
  // A cycle keeps the search running
  // ---------------------------------------------------------------------------

  /** An id that leads to a cycle has a reply that does. */
  lemma CycleAhead(es: seq<Entry>, h: string) returns (y: string)
    requires LeadsToCycle(es, h)
    ensures y in Replies(es, h) && LeadsToCycle(es, y)
  {
    hide Replies, AllReplies;
    var x, j: nat, m: nat :| OnCycle(es, h, x, j, m);
    hide Level;
    if j > 0 {
      FirstStep(es, h, x, j - 1);
      y :| y in Replies(es, h) && x in Level(es, y, j - 1);
      assert OnCycle(es, y, x, j - 1, m);
    } else {
      SelfOnly(es, h, x);
      FirstStep(es, x, x, m - 1);
      y :| y in Replies(es, x) && x in Level(es, y, m - 1);
      assert OnCycle(es, y, x, m - 1, m);
    }
  }

  lemma SelfOnly(es: seq<Entry>, h: string, x: string)
    ensures x in Level(es, h, 0) <==> x == h
  {
  }

  lemma {:induction false} CycleNeverDrains(es: seq<Entry>, queue: seq<string>, z: string, n: nat)
    requires z in queue && LeadsToCycle(es, z)
    ensures QueueAfter(es, queue, n) != []
    decreases n
  {
    hide LeadsToCycle;
    if n > 0 {
      var next := queue[1..] + Replies(es, queue[0]);
      var y := z;
      if z == queue[0] {
        y := CycleAhead(es, z);
      } else {
        assert queue == [queue[0]] + queue[1..];
      }
      CycleNeverDrains(es, next, y, n - 1);
    }
  }

  // ---------------------------------------------------------------------------
  // Without a cycle the search ends
  // ---------------------------------------------------------------------------

  /** A chain of replies from `root` down to x. */
  ghost predicate IsPath(es: seq<Entry>, path: seq<string>) {
    path != [] && forall i :: 0 < i < |path| ==> path[i] in Replies(es, path[i - 1])
  }

  lemma {:induction false} PathTo(es: seq<Entry>, root: string, x: string, k: nat) returns (path: seq<string>)
    requires x in Level(es, root, k)
    ensures |path| == k + 1 && path[0] == root && path[k] == x && IsPath(es, path)
    decreases k
  {
    hide Replies, AllReplies;
    if k == 0 {
      path := [root];
    } else {
      AllRepliesIn(es, Level(es, root, k - 1), x);
      var p :| p in Level(es, root, k - 1) && x in Replies(es, p);
      var front := PathTo(es, root, p, k - 1);
      path := front + [x];
    }
  }

  lemma {:induction false} AlongPath(es: seq<Entry>, path: seq<string>, i: nat, j: nat)
    requires IsPath(es, path) && i <= j < |path|
    ensures path[j] in Level(es, path[i], j - i)
  {
    hide Replies, AllReplies;
    if i < j {
      AlongPath(es, path, i, j - 1);
      AllRepliesIn(es, Level(es, path[i], j - 1 - i), path[j]);
    }
  }

  lemma {:induction false} KidsWithin(es: seq<Entry>, ids: set<string>, p: string)
    ensures forall k :: k in Kids(es, ids, p) ==> k in es
  {
    if es != [] {
      KidsWithin(es[..|es| - 1], ids, p);
      assert es == es[..|es| - 1] + [es[|es| - 1]];
    }
  }

  lemma RepliesWithin(es: seq<Entry>, p: string)
    ensures forall y :: y in Replies(es, p) ==> y in Ids(es)
  {
    var kids := Kids(es, CommentIds(es), p);
    KidsWithin(es, CommentIds(es), p);
    hide Kids;
    forall y | y in Ids(kids)
      ensures y in Ids(es)
    {
      var i :| 0 <= i < |kids| && Ids(kids)[i] == y;
      assert kids[i] in es;
      var j :| 0 <= j < |es| && es[j] == kids[i];
      assert Ids(es)[j] == y;
    }
  }

  /** A path longer than the timeline meets some id twice. */
  lemma LongPathTurns(es: seq<Entry>, path: seq<string>)
    requires IsPath(es, path) && |path| > |es| + 1
    ensures LeadsToCycle(es, path[0])
  {
    hide Replies, AllReplies;
    var i, j := MeetsTwice(es, path);
    AlongPath(es, path, 0, i);
    AlongPath(es, path, i, j);
    hide Level, IsPath;
    assert OnCycle(es, path[0], path[i], i, j - i);
  }

  lemma MeetsTwice(es: seq<Entry>, path: seq<string>) returns (i: nat, j: nat)
    requires IsPath(es, path) && |path| > |es| + 1
    ensures 0 < i < j < |path| && path[i] == path[j]
  {
    var steps := path[1..];
    forall y | y in steps
      ensures y in Ids(es)
    {
      var i :| 0 <= i < |steps| && steps[i] == y;
      RepliesWithin(es, path[i]);
      assert path[i + 1] in Replies(es, path[i]);
    }
    hide Replies, IsPath;
    if Distinct(steps) {
      DistinctWithin(steps, Ids(es));
    }
    var a, b :| 0 <= a < b < |steps| && steps[a] == steps[b];
    i, j := a + 1, b + 1;
  }

  lemma LevelsRunOut(es: seq<Entry>, root: string)
    requires !LeadsToCycle(es, root)
    ensures Level(es, root, |es| + 1) == []
  {
    hide LeadsToCycle, IsPath;
    var last := Level(es, root, |es| + 1);
    if last != [] {
      var path := PathTo(es, root, last[0], |es| + 1);
      LongPathTurns(es, path);
    }
  }

  lemma {:induction false} QueueJoins(es: seq<Entry>, queue: seq<string>, a: nat, b: nat)
    ensures QueueAfter(es, queue, a + b) == QueueAfter(es, QueueAfter(es, queue, a), b)
    decreases a
  {
    if a > 0 && queue != [] {
      QueueJoins(es, queue[1..] + Ids(Kids(es, CommentIds(es), queue[0])), a - 1, b);
    }
  }

  /** Working off the front of the queue puts its replies behind the rest. */
  lemma {:induction false} QueueShifts(es: seq<Entry>, front: seq<string>, rest: seq<string>)
    ensures QueueAfter(es, front + rest, |front|) == rest + AllReplies(es, front)
    decreases |front|
  {
    hide Kids, CommentIds;
    var queue := front + rest;
    if front == [] {
      assert queue == rest;
    } else {
      var more := Replies(es, front[0]);
      assert queue[0] == front[0] && queue[1..] + more == front[1..] + (rest + more);
      QueueShifts(es, front[1..], rest + more);
      AllRepliesOfOne(es, front[0]);
      AllRepliesAppend(es, [front[0]], front[1..]);
      assert front == [front[0]] + front[1..];
    }
  }

  ghost predicate AllRunOut(es: seq<Entry>, queue: seq<string>, k: nat) {
    forall z :: z in queue ==> Level(es, z, k) == []
  }

  lemma NextRunOut(es: seq<Entry>, queue: seq<string>, k: nat)
    requires k > 0 && AllRunOut(es, queue, k)
    ensures AllRunOut(es, AllReplies(es, queue), k - 1)
  {
    hide Replies, AllReplies, Level;
    forall y | y in AllReplies(es, queue)
      ensures Level(es, y, k - 1) == []
    {
      AllRepliesIn(es, queue, y);
      var p :| p in queue && y in Replies(es, p);
      if Level(es, y, k - 1) != [] {
        var x := Level(es, y, k - 1)[0];
        FirstStep(es, p, x, k - 1);
        assert x in Level(es, p, k);
      }
    }
  }

  lemma {:induction false} RunsOut(es: seq<Entry>, queue: seq<string>, k: nat) returns (n: nat)
    requires AllRunOut(es, queue, k)
    ensures QueueAfter(es, queue, n) == []
    decreases k
  {
    hide QueueAfter, AllReplies;
    if k == 0 {
      NotOutAtOnce(es, queue);
      n := 0;
    } else {
      NextRunOut(es, queue, k);
      var m := RunsOut(es, AllReplies(es, queue), k - 1);
      QueueShifts(es, queue, []);
      assert queue + [] == queue && [] + AllReplies(es, queue) == AllReplies(es, queue);
      QueueJoins(es, queue, |queue|, m);
      n := |queue| + m;
    }
  }

  lemma NotOutAtOnce(es: seq<Entry>, queue: seq<string>)
    ensures queue != [] ==> !AllRunOut(es, queue, 0)
    ensures QueueAfter(es, queue, 0) == queue
  {
    if queue != [] {
      assert queue[0] in queue && Level(es, queue[0], 0) == [queue[0]];
    }
  }

  /** For every timeline, with ids and parents as they come: the search from an id ends if and only if no
      id that it can reach lies below itself. Repeated ids do no harm off a cycle. */
  lemma SearchEndsIff(es: seq<Entry>, root: string)
    ensures (exists n: nat :: QueueAfter(es, [root], n) == []) <==> !LeadsToCycle(es, root)
  {
    hide LeadsToCycle, QueueAfter, Level;
    if LeadsToCycle(es, root) {
      forall n: nat
        ensures QueueAfter(es, [root], n) != []
      {
        CycleNeverDrains(es, [root], root, n);
      }
    } else {
      LevelsRunOut(es, root);
      assert AllRunOut(es, [root], |es| + 1);
      var n := RunsOut(es, [root], |es| + 1);
    }
  }
}
