/** Folding repeated activities into one line (apps/mobile/lib/timeline-coalesce.ts). */
module TimelineCoalesce {
  import opened Text
  import opened Timeline

  const COALESCE_MS := 2 * 60 * 1000

  function Action(e: Entry): string {
    if e.action.Some? then e.action.value else ""
  }

  predicate Mergeable(prev: Entry, e: Entry) {
    && e.kind.Activity?
    && Action(e) != "squad_leader_evaluated"
    && prev.kind.Activity?
    && prev.action == e.action
    && prev.actorType == e.actorType
    && prev.actorId == e.actorId
    && (Action(e) == "task_completed" || Action(e) == "task_failed"
        || -COALESCE_MS <= e.createdAt - prev.createdAt <= COALESCE_MS)
  }

  function Count(e: Entry): nat {
    if e.coalescedCount.Some? then e.coalescedCount.value else 1
  }

  /** The line so far with one more entry folded in: the newer entry and a larger count. */
  function Merge(prev: Entry, e: Entry): Entry {
    e.(coalescedCount := Some(Count(prev) + 1))
  }

  function Push(out: seq<Entry>, e: Entry): seq<Entry> {
    if out != [] && Mergeable(out[|out| - 1], e) then out[..|out| - 1] + [Merge(out[|out| - 1], e)] else out + [e]
  }

  function Coalesce(es: seq<Entry>): seq<Entry> {
    if es == [] then [] else Push(Coalesce(es[..|es| - 1]), es[|es| - 1])
  }

  method CoalesceTimeline(entries: seq<Entry>) returns (out: seq<Entry>)
    ensures out == Coalesce(entries)
  {
    hide Mergeable, Merge;
    out := [];
    for i := 0 to |entries|
      invariant out == Coalesce(entries[..i])
    {
      var entry := entries[i];
      assert entries[..i + 1][..i] == entries[..i];
      assert Coalesce(entries[..i + 1]) == Push(out, entry);
      OnlyActivitiesMerge(out, entry);
      if entry.kind.Activity? && out != [] {
        var prev := out[|out| - 1];
        if Mergeable(prev, entry) {
          assert out[|out| - 1 := Merge(prev, entry)] == out[..|out| - 1] + [Merge(prev, entry)];
          out := out[|out| - 1 := Merge(prev, entry)];
          continue;
        }
      }
      out := out + [entry];
    }
    assert entries[..|entries|] == entries;
  }

  lemma OnlyActivitiesMerge(out: seq<Entry>, e: Entry)
    ensures !e.kind.Activity? ==> Push(out, e) == out + [e]
  {
  }

  // ---------------------------------------------------------------------------
  // What the fold computes: one line per maximal run
  // ---------------------------------------------------------------------------

  function Flatten(runs: seq<seq<Entry>>): seq<Entry> {
    if runs == [] then [] else Flatten(runs[..|runs| - 1]) + runs[|runs| - 1]
  }

  /** Neighbours in the run are mergeable. */
  predicate IsRun(run: seq<Entry>) {
    run != [] && forall i :: 0 < i < |run| ==> Mergeable(run[i - 1], run[i])
  }

  /** The entries cut wherever two neighbours are not mergeable, and nowhere else. */
  predicate IsRunPartition(es: seq<Entry>, runs: seq<seq<Entry>>) {
    && Flatten(runs) == es
    && (forall i :: 0 <= i < |runs| ==> IsRun(runs[i]))
    && (forall i :: 0 < i < |runs| ==> !Mergeable(runs[i - 1][|runs[i - 1]| - 1], runs[i][0]))
  }

  /** The last entry of the run, counting the others. */
  function Summary(run: seq<Entry>): Entry
    requires run != []
  {
    var last := run[|run| - 1];
    if |run| == 1 then last else last.(coalescedCount := Some(Count(run[0]) + |run| - 1))
  }

  function Summaries(runs: seq<seq<Entry>>): (lines: seq<Entry>)
    requires forall i :: 0 <= i < |runs| ==> runs[i] != []
    ensures |lines| == |runs|
  {
    seq(|runs|, i requires 0 <= i < |runs| => Summary(runs[i]))
  }

  /** Coalescing a run on top of lines it does not merge with appends its summary. */
  lemma {:induction false} CoalesceRun(before: seq<Entry>, run: seq<Entry>)
    requires IsRun(run)
    requires Coalesce(before) != [] ==> !Mergeable(Coalesce(before)[|Coalesce(before)| - 1], run[0])
    ensures Coalesce(before + run) == Coalesce(before) + [Summary(run)]
    decreases |run|
  {
    hide Mergeable, Coalesce;
    var front, e := run[..|run| - 1], run[|run| - 1];
    assert before + run == (before + front) + [e];
    CoalesceSnoc(before + front, e);
    if front == [] {
      assert before + front == before;
    } else {
      CoalesceRun(before, front);
      assert Mergeable(front[|front| - 1], e);
      SameMerging(front[|front| - 1], Summary(front), e);
      assert Merge(Summary(front), e) == Summary(run);
    }
  }

  lemma CoalesceSnoc(es: seq<Entry>, e: Entry)
    ensures Coalesce(es + [e]) == Push(Coalesce(es), e)
  {
    assert (es + [e])[..|es|] == es;
  }

  /** Whether an entry merges does not depend on the count of the line before it. */
  lemma SameMerging(a: Entry, b: Entry, e: Entry)
    requires b == a.(coalescedCount := b.coalescedCount)
    ensures Mergeable(a, e) <==> Mergeable(b, e)
  {
  }

  /** The lines are the summaries of the maximal runs. */
  lemma {:induction false} CoalesceSummarizesRuns(es: seq<Entry>, runs: seq<seq<Entry>>)
    requires IsRunPartition(es, runs)
    ensures Coalesce(es) == Summaries(runs)
    decreases |runs|
  {
    hide Mergeable, Coalesce;
    if runs == [] {
      NothingToCoalesce();
    } else {
      var front, run := runs[..|runs| - 1], runs[|runs| - 1];
      CoalesceSummarizesRuns(Flatten(front), front);
      if front != [] {
        var last := front[|front| - 1];
        SameMerging(last[|last| - 1], Summary(last), run[0]);
        assert Summaries(front)[|front| - 1] == Summary(last);
      }
      CoalesceRun(Flatten(front), run);
      assert Summaries(runs) == Summaries(front) + [Summary(run)];
    }
  }

  lemma NothingToCoalesce()
    ensures Coalesce([]) == []
  {
  }

  /** Every timeline has such a partition. */
  lemma {:induction false} RunPartitionExists(es: seq<Entry>) returns (runs: seq<seq<Entry>>)
    ensures IsRunPartition(es, runs)
  {
    hide Mergeable;
    if es == [] {
      return [];
    }
    var front, e := es[..|es| - 1], es[|es| - 1];
    assert es == front + [e];
    var before := RunPartitionExists(front);
    runs := ExtendPartition(front, before, e);
  }

  lemma ExtendPartition(front: seq<Entry>, before: seq<seq<Entry>>, e: Entry) returns (runs: seq<seq<Entry>>)
    requires IsRunPartition(front, before)
    ensures IsRunPartition(front + [e], runs)
  {
    assert forall i :: 0 <= i < |before| ==> IsRun(before[i]);
    hide Mergeable, IsRunPartition;
    if before == [] || !Mergeable(before[|before| - 1][|before[|before| - 1]| - 1], e) {
      runs := before + [[e]];
      StartRun(front, before, e);
    } else {
      runs := before[..|before| - 1] + [before[|before| - 1] + [e]];
      JoinRun(front, before, e);
    }
  }

  lemma StartRun(front: seq<Entry>, before: seq<seq<Entry>>, e: Entry)
    requires IsRunPartition(front, before)
    requires before == [] || !Mergeable(before[|before| - 1][|before[|before| - 1]| - 1], e)
    ensures IsRunPartition(front + [e], before + [[e]])
  {
    hide Mergeable;
    var runs := before + [[e]];
    assert runs[..|before|] == before;
    assert IsRun([e]);
  }

  lemma JoinRun(front: seq<Entry>, before: seq<seq<Entry>>, e: Entry)
    requires IsRunPartition(front, before)
    requires before != [] && Mergeable(before[|before| - 1][|before[|before| - 1]| - 1], e)
    ensures IsRunPartition(front + [e], before[..|before| - 1] + [before[|before| - 1] + [e]])
  {
    hide Mergeable;
    var n, last := |before| - 1, before[|before| - 1];
    var runs := before[..n] + [last + [e]];
    assert runs[..n] == before[..n];
    assert Flatten(runs) == Flatten(before[..n]) + (last + [e]) == front + [e];
    assert IsRun(last + [e]);
    assert forall i :: 0 <= i < n ==> runs[i] == before[i];
  }

  // ---------------------------------------------------------------------------
  // Conservation
  // ---------------------------------------------------------------------------

  function Total(es: seq<Entry>): nat {
    if es == [] then 0 else Total(es[..|es| - 1]) + Count(es[|es| - 1])
  }

  /** The entries that were folded into the line before them. */
  function Absorbed(es: seq<Entry>): seq<Entry> {
    if es == [] then []
    else
      var out, e := Coalesce(es[..|es| - 1]), es[|es| - 1];
      Absorbed(es[..|es| - 1]) + (if out != [] && Mergeable(out[|out| - 1], e) then [e] else [])
  }

  lemma TotalSnoc(es: seq<Entry>, e: Entry)
    ensures Total(es + [e]) == Total(es) + Count(e)
  {
    assert (es + [e])[..|es|] == es;
  }

  /** Every absorbed entry counts as one, whatever count it carried. */
  lemma {:induction false} TotalsConserved(es: seq<Entry>)
    ensures Total(Coalesce(es)) + Total(Absorbed(es)) == Total(es) + |Absorbed(es)|
    ensures |Coalesce(es)| + |Absorbed(es)| == |es|
  {
    hide Mergeable;
    if es != [] {
      var front, e := es[..|es| - 1], es[|es| - 1];
      TotalsConserved(front);
      var out := Coalesce(front);
      if out != [] && Mergeable(out[|out| - 1], e) {
        TotalSnoc(out[..|out| - 1], Merge(out[|out| - 1], e));
        TotalSnoc(Absorbed(front), e);
      } else {
        TotalSnoc(out, e);
        assert Absorbed(front) + [] == Absorbed(front);
      }
    }
  }

  /** Fresh input, which carries no counts, keeps its total. */
  lemma {:induction false} FreshTotal(es: seq<Entry>)
    requires forall e :: e in es ==> e.coalescedCount == None
    ensures Total(es) == |es| && Total(Absorbed(es)) == |Absorbed(es)|
  {
    hide Mergeable;
    if es != [] {
      var front, e := es[..|es| - 1], es[|es| - 1];
      assert e in es;
      assert forall x :: x in front ==> x in es;
      FreshTotal(front);
      TotalSnoc(Absorbed(front), e);
      assert Absorbed(front) + [] == Absorbed(front);
    }
  }

  lemma CoalesceConservesFreshTotal(es: seq<Entry>)
    requires forall e :: e in es ==> e.coalescedCount == None
    ensures Total(Coalesce(es)) == |es|
  {
    TotalsConserved(es);
    FreshTotal(es);
  }

  /** Comments and squad-leader evaluations. */
  predicate NeverMerges(e: Entry) {
    e.kind.Comment? || Action(e) == "squad_leader_evaluated"
  }

  function Kept(es: seq<Entry>): seq<Entry> {
    if es == [] then [] else Kept(es[..|es| - 1]) + (if NeverMerges(es[|es| - 1]) then [es[|es| - 1]] else [])
  }

  lemma KeptSnoc(es: seq<Entry>, e: Entry)
    ensures Kept(es + [e]) == Kept(es) + (if NeverMerges(e) then [e] else [])
  {
    assert (es + [e])[..|es|] == es;
  }

  lemma KeptPush(out: seq<Entry>, e: Entry)
    ensures Kept(Push(out, e)) == Kept(out + [e])
  {
    hide Kept;
    KeptSnoc(out, e);
    if out != [] && Mergeable(out[|out| - 1], e) {
      var prev := out[|out| - 1];
      assert !NeverMerges(prev) && !NeverMerges(Merge(prev, e)) && !NeverMerges(e);
      hide Mergeable, NeverMerges, Merge;
      assert out == out[..|out| - 1] + [prev];
      KeptSnoc(out[..|out| - 1], prev);
      KeptSnoc(out[..|out| - 1], Merge(prev, e));
    }
  }

  /** Comments and evaluations come through unchanged and in order. */
  lemma {:induction false} KeptConserved(es: seq<Entry>)
    ensures Kept(Coalesce(es)) == Kept(es)
  {
    hide NeverMerges, Push, Kept;
    if es != [] {
      var front, e := es[..|es| - 1], es[|es| - 1];
      assert es == front + [e];
      KeptConserved(front);
      KeptPush(Coalesce(front), e);
      KeptSnoc(Coalesce(front), e);
      KeptSnoc(front, e);
    }
  }

  // ---------------------------------------------------------------------------
  // Idempotence
  // ---------------------------------------------------------------------------

  predicate Settled(es: seq<Entry>) {
    forall i :: 0 < i < |es| ==> !Mergeable(es[i - 1], es[i])
  }

  predicate Ascending(es: seq<Entry>) {
    forall i :: 0 < i < |es| ==> es[i - 1].createdAt <= es[i].createdAt
  }

  lemma SettledSnoc(front: seq<Entry>, e: Entry)
    ensures Settled(front + [e]) <==> Settled(front) && (front == [] || !Mergeable(front[|front| - 1], e))
  {
    hide Mergeable;
    var es := front + [e];
    forall i | 0 < i < |front|
      ensures Mergeable(es[i - 1], es[i]) <==> Mergeable(front[i - 1], front[i])
    {
    }
    assert front != [] ==> es[|front| - 1] == front[|front| - 1] && es[|front|] == e;
    if Settled(es) {
      assert front != [] ==> !Mergeable(es[|front| - 1], es[|front|]);
    }
  }

  /** Coalescing changes nothing exactly where no two neighbours are mergeable. */
  lemma {:induction false} FixedIffSettled(es: seq<Entry>)
    ensures Coalesce(es) == es <==> Settled(es)
    ensures |Coalesce(es)| <= |es|
  {
    hide Mergeable, Settled;
    if es == [] {
      SettledStart();
    } else {
      var front, e := es[..|es| - 1], es[|es| - 1];
      assert es == front + [e];
      FixedIffSettled(front);
      SettledSnoc(front, e);
    }
  }

  lemma {:induction false} CoalesceSettles(es: seq<Entry>)
    requires Ascending(es)
    ensures var out := Coalesce(es);
      && Settled(out) && Ascending(out)
      && (es != [] ==> out != [] && out[|out| - 1].createdAt == es[|es| - 1].createdAt)
  {
    hide Mergeable, Settled, Ascending, Push;
    if es == [] {
      assert Settled([]) && Ascending([]) by { SettledStart(); }
    } else {
      var front, e := es[..|es| - 1], es[|es| - 1];
      AscendingFront(es);
      CoalesceSettles(front);
      PushSettles(Coalesce(front), e);
    }
  }

  lemma SettledStart()
    ensures Settled([]) && Ascending([])
  {
  }

  lemma AscendingFront(es: seq<Entry>)
    requires Ascending(es) && es != []
    ensures Ascending(es[..|es| - 1])
    ensures |es| > 1 ==> es[..|es| - 1][|es| - 2].createdAt <= es[|es| - 1].createdAt
  {
  }

  lemma PushSettles(out: seq<Entry>, e: Entry)
    requires Settled(out) && Ascending(out)
    requires out != [] ==> out[|out| - 1].createdAt <= e.createdAt
    ensures var next := Push(out, e);
      next != [] && Settled(next) && Ascending(next) && next[|next| - 1].createdAt == e.createdAt
  {
    if |out| > 1 && Mergeable(out[|out| - 1], e) {
      StillApart(out[|out| - 2], out[|out| - 1], e);
    }
    hide Mergeable;
  }

  /** A later entry that joins a line does not make that line joinable with an earlier one. */
  lemma StillApart(a: Entry, b: Entry, e: Entry)
    requires a.createdAt <= b.createdAt <= e.createdAt
    requires !Mergeable(a, b) && Mergeable(b, e)
    ensures !Mergeable(a, Merge(b, e))
  {
  }

  /** No run ends in an entry that would merge with the end of the run before it. */
  predicate EndsApart(runs: seq<seq<Entry>>)
    requires forall i :: 0 <= i < |runs| ==> runs[i] != []
  {
    forall i :: 0 < i < |runs| ==> !Mergeable(runs[i - 1][|runs[i - 1]| - 1], runs[i][|runs[i]| - 1])
  }

  lemma SameMergingBoth(a: Entry, b: Entry, c: Entry, d: Entry)
    requires b == a.(coalescedCount := b.coalescedCount) && d == c.(coalescedCount := d.coalescedCount)
    ensures Mergeable(a, c) <==> Mergeable(b, d)
  {
  }

  lemma SummariesSettledIff(runs: seq<seq<Entry>>)
    requires forall i :: 0 <= i < |runs| ==> runs[i] != []
    ensures Settled(Summaries(runs)) <==> EndsApart(runs)
  {
    hide Mergeable;
    var lines := Summaries(runs);
    forall i | 0 < i < |runs|
      ensures Mergeable(lines[i - 1], lines[i])
         <==> Mergeable(runs[i - 1][|runs[i - 1]| - 1], runs[i][|runs[i]| - 1])
    {
      var a, c := runs[i - 1][|runs[i - 1]| - 1], runs[i][|runs[i]| - 1];
      assert lines[i - 1] == Summary(runs[i - 1]) && lines[i] == Summary(runs[i]);
      SameMergingBoth(a, lines[i - 1], c, lines[i]);
    }
  }

  /** One pass is enough, on any input, if and only if no two neighbouring runs end in mergeable
      entries: the first entries of the runs never are, but a line takes the time of its last. */
  lemma OnePassSufficesIff(es: seq<Entry>, runs: seq<seq<Entry>>)
    requires IsRunPartition(es, runs)
    ensures Coalesce(Coalesce(es)) == Coalesce(es) <==> EndsApart(runs)
  {
    hide Mergeable, Coalesce, Summary;
    CoalesceSummarizesRuns(es, runs);
    FixedIffSettled(Coalesce(es));
    SummariesSettledIff(runs);
  }

  lemma AscendingEndsApart(es: seq<Entry>, runs: seq<seq<Entry>>)
    requires IsRunPartition(es, runs) && Ascending(es)
    ensures EndsApart(runs)
  {
    hide Mergeable, Coalesce;
    CoalesceSettles(es);
    CoalesceSummarizesRuns(es, runs);
    SummariesSettledIff(runs);
  }

  /** In particular one pass is enough on chronological input. */
  lemma CoalesceTwice(es: seq<Entry>)
    requires Ascending(es)
    ensures Coalesce(Coalesce(es)) == Coalesce(es)
  {
    var runs := RunPartitionExists(es);
    AscendingEndsApart(es, runs);
    OnePassSufficesIff(es, runs);
  }

  /** Out of order, one pass may leave two lines that the next pass merges. */
  lemma OutOfOrderNeedsTwoPasses(e: Entry)
    requires e.kind.Activity? && e.action == None
    ensures var es := [e.(createdAt := 0), e.(createdAt := 130000), e.(createdAt := 60000)];
      |Coalesce(es)| == 2 && |Coalesce(Coalesce(es))| == 1
  {
    var a, b, c := e.(createdAt := 0), e.(createdAt := 130000), e.(createdAt := 60000);
    assert [a, b, c][..2] == [a, b] && [a, b][..1] == [a] && [a][..0] == [];
    assert Coalesce([a]) == [a];
    assert Coalesce([a, b]) == [a, b];
    var merged := Merge(b, c);
    assert Coalesce([a, b, c]) == [a, merged];
    assert [a, merged][..1] == [a];
    assert Coalesce([a, merged]) == [Merge(a, merged)];
  }

  // ---------------------------------------------------------------------------
  // The rule, and what a line shows
  // ---------------------------------------------------------------------------

  /** Two activities of one actor doing the same thing, at most two minutes apart unless a task ended;
      squad-leader evaluations are never alike. */
  predicate Alike(a: Entry, b: Entry) {
    && a.kind.Activity? && b.kind.Activity?
    && a.action == b.action && a.actorType == b.actorType && a.actorId == b.actorId
    && b.action != Some("squad_leader_evaluated")
    && (|| b.action == Some("task_completed")
        || b.action == Some("task_failed")
        || (a.createdAt <= b.createdAt + 120000 && b.createdAt <= a.createdAt + 120000))
  }

  lemma MergeableIffAlike(a: Entry, b: Entry)
    ensures Mergeable(a, b) <==> Alike(a, b)
  {
  }

  /** Two entries become one line, the newer one counting both, if and only if they are alike. */
  lemma PairFoldsIff(a: Entry, b: Entry)
    ensures |Coalesce([a, b])| == 1 <==> Alike(a, b)
    ensures var count := if a.coalescedCount.Some? then a.coalescedCount.value + 1 else 2;
            Coalesce([a, b]) == if Alike(a, b) then [b.(coalescedCount := Some(count))] else [a, b]
  {
    hide Mergeable, Alike;
    MergeableIffAlike(a, b);
    assert [a, b][..1] == [a] && [a][..0] == [];
    assert Coalesce([a]) == [a];
    assert [a][..0] + [Merge(a, b)] == [Merge(a, b)];
  }

  /** A block shown as one line: its last entry, counting what the first one counted and one for each other. */
  predicate ShowsBlock(line: Entry, block: seq<Entry>) {
    && block != []
    && (forall j :: 0 < j < |block| ==> Alike(block[j - 1], block[j]))
    && var first := if block[0].coalescedCount.Some? then block[0].coalescedCount.value else 1;
       line == if |block| == 1 then block[0]
               else block[|block| - 1].(coalescedCount := Some(first + |block| - 1))
  }

  /** On every input the lines show, in order, the blocks that the timeline falls into: neighbours in a block
      are alike, neighbours in different blocks are not. */
  lemma LinesShowBlocks(es: seq<Entry>) returns (blocks: seq<seq<Entry>>)
    ensures Flatten(blocks) == es && |blocks| == |Coalesce(es)|
    ensures forall i :: 0 <= i < |blocks| ==> blocks[i] != [] && ShowsBlock(Coalesce(es)[i], blocks[i])
    ensures forall i :: 0 < i < |blocks| ==> !Alike(blocks[i - 1][|blocks[i - 1]| - 1], blocks[i][0])
  {
    hide Mergeable, Alike, Coalesce;
    blocks := RunPartitionExists(es);
    CoalesceSummarizesRuns(es, blocks);
    forall i | 0 <= i < |blocks|
      ensures ShowsBlock(Coalesce(es)[i], blocks[i])
    {
      assert Coalesce(es)[i] == Summary(blocks[i]);
      forall j | 0 < j < |blocks[i]|
        ensures Alike(blocks[i][j - 1], blocks[i][j])
      {
        MergeableIffAlike(blocks[i][j - 1], blocks[i][j]);
      }
    }
    forall i | 0 < i < |blocks|
      ensures !Alike(blocks[i - 1][|blocks[i - 1]| - 1], blocks[i][0])
    {
      MergeableIffAlike(blocks[i - 1][|blocks[i - 1]| - 1], blocks[i][0]);
    }
  }
}
