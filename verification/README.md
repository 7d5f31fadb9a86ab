# A verified model of Multica's client-side caches, lists and editor buffers

Multica's clients keep state that must agree with something simpler: the composer's text must agree
with the mentions that were chosen, thread rows with the loaded timeline, status columns with a plain
map of issues, an optimistic edit with its rollback, live lists with whatever order the socket delivers,
and bounded lists with the full history. This project restates that logic in Dafny, branch by branch, and
proves the agreement for all inputs, all runs, or all delivery orders. Where a promise is false of the
code, the model keeps the code, a lemma gives an input for which it fails, and a theorem says exactly when it holds.

Code that changes objects step by step is a class or a method with loops and invariants, proved against
functions; the laws are lemmas about those functions. Beside the laws over whole runs, every main operation has one that
fixes its result in terms of the input alone: where each character goes, which field of which issue changes, which row counts where.

## What is modelled

**Mentions** (`Text`, `MentionSerialize`, `MentionRoundTrip`, `MentionInput`, `MentionOwners`, `MentionShortcodes`). The composer marks a
completed mention with an invisible sentinel and prints it as a markdown link when it is sent. The serializer is
proved all or nothing, and it reads back what the suggestion bar inserted exactly when no name holds white
space. The composer is a class; over runs of typing outside the mentions, choosing mentions from left
to right, and line prefixes, the chosen mentions are the runs of the text, and for every text it is settled when each run gets its own marker's link. The legacy shortcode rewriter is an explicit
scanner: it changes only shortcodes, and it is idempotent exactly for ids that hide no opener.

**Timelines** (`Sequences`, `Timeline`, `TimelineThread`, `ThreadRows`, `ThreadConservation`, `ThreadSearch`, `ThreadOrder`, `CommentCascade`,
`TimelineCoalesce`). Breadth-first threading over a parent relation that may be cyclic, when its search ends and when its replies are chronological, the fixpoint that collects a comment and its replies for deletion, and the folding of similar activities.

**Issue caches** (`IssueBuckets`, `IssueRuns`, `IssueEdits`, `QueryCache`, `IssueMutations`, `DeleteCache`, `IssueDeletes`, `IssueEvents`, `IssueWrites`, `IssueCleanup`, `IssuePaging`).
The status columns refine a map from ids to issues. The query cache is a class with prefix lookup; the four optimistic
mutations are proved to be undone exactly by their error handlers on the whole cache. Delete cleanup, WebSocket steps,
load-more, the Gantt walk and the chunked children request work on the same store.

**Realtime and inbox** (`SortedAppend`, `ChatCache`, `Inbox`, `InboxLines`). Replayed and reordered deliveries converge; chat events keep messages unique
and the pending record with its owner; one inbox line per issue, and what archiving does to it.

**Bounded and indexed views** (`Recency`, `RecentContext`, `WorkspaceStorage`, `AgentPresence`, `AgentActivity`). Recency lists at two levels, storage namespaced by
workspace with its microtask queue, and single-pass indexes against plain search and sums.

## Where the code and its promises part

- `apps/mobile/lib/mention-serialize.ts:14-18` speaks of a copy-paste that breaks a marker; in fact any name with white space,
  say a first and a last name, ends the run early and turns every mention of the comment into plain text (`RoundTrip`, `SpacedNameNeverLinks`).
- Markers are appended in the order of choosing while runs are matched in text order: two people of one name chosen out of order
  swap links (`OutOfOrderSwapsLinks`), against the promise of `apps/mobile/lib/mention-serialize.ts:16-18` never to claim a mention
  that cannot be proved. `PublishedIff` and `SelectionKeepsOwnersIff` say exactly when every run gets its own link.
- `packages/core/markdown/mention-shortcodes.ts:15-17` calls the rewriter idempotent; an id that contains `[@` and white space
  opens a new match on the second pass (`UnsafeIdReopens`, `IdempotentIffSafeId`).
- `apps/mobile/lib/timeline-thread.ts:24-26` says that as many entries come out as went in; entries on a parent cycle, or below one, vanish
  (`MutualRepliesVanish`), and exactly then (`CountsAgreeIffAcyclic`). A root and reply with one id make the search endless (`SharedIdNeverFinishes`); the search from an id ends
  exactly when nothing it can reach lies below itself (`SearchEndsIff`).
- `apps/mobile/lib/timeline-thread.ts:22-23` and `:32` promise replies in chronological order; breadth-first order keeps it exactly when no reply
  answers an earlier comment of the row than some older reply does (`RepliesChronologicalIff`, broken by `LateReplyComesFirst`).
- `addIssueToBuckets` looks only at the issue's own column; a stale copy in another column makes the id appear twice (`StaleCopyAppearsTwice`, `AddCoherentIff`). The same holds between columns in the
  three-way union of first pages (`MovedBetweenRequests`, `MergedCoherentIff`).
- Load-more takes its offset from the loaded count and its button from the last total. A column, whatever it holds, can be completed
  exactly when it holds the front of the server's list and either counts something as missing or is as long as the list
  (`LoadMoreCompleteIff`, `PressesCompleteIff`). If the server lost any loaded issue unheard, the next issue is skipped for good while the
  column comes to report nothing missing (`LoadMoreSkips`); a column whose next page is loaded already is stuck (`PressesStall`), as when a page of newer
  issues came in front of it (`InsertedInFrontStalls`); and a stale total disables the button for good (`StaleTotalDisables`).
- A loaded assignee-grouped board shares the my-issues prefix and has no buckets: collecting delete metadata then throws before any write, and cleanup with
  metadata passed in throws after pruning the plain lists (`GroupedBoardThrows`); exactly when an entry has no buckets (`DeleteOnMutate`, `CleanupDeletedIssueCaches`).
- A late replay of chat:done clears the pending record of whatever task was queued since (`LateReplayDropsNextTask`), and changes nothing otherwise (`ReplayIff`).
- One folding pass may leave lines that a second pass folds (`OutOfOrderNeedsTwoPasses`); it is enough exactly when no two neighbouring runs end
  in mergeable entries (`OnePassSufficesIff`), as on all chronological input.
- An optimistic update that moves an issue to another parent leaves the new parent's loaded children stale; exactly then the server's echo still
  changes the cache (`MoveEchoChangesIff`), as for an issue moved away and back (`MovedBackIsStale`).
- With a clock set back behind every head, a full recent-context store evicts the workspace just visited (`ClockSetBackLosesVisit`, `JustVisitedEvictedIff`).
- `packages/core/platform/storage-cleanup.ts:4-9` asks that every workspace-scoped key be listed; what is written under a key survives the cleanup exactly
  when it is not (`SurvivesCleanupIff`), as `multica_comment_drafts` (`DraftsSurviveCleanup`).
- A day shortened by a clock change, and every day before it, is drawn one slot late, on top of the following one (`OwnSlotIff`, `SharedSlotIff`, `ClockChange`).
- With repeated agent ids the presence map and the search part (`RepeatedAgentDisagrees`); `MapAgreesIff` says when.

## Model

| member | source | states |
|---|---|---|
| MentionSerialize.TokenAtIff | apps/mobile/lib/mention-serialize.ts:34-79 | a cursor has at most one token, and it is (start, query) exactly when an `@` stands at start, after white space or the text start and not after a sentinel, with neither `@` nor white space up to the cursor |
| MentionSerialize.TokenAtCursor | apps/mobile/lib/mention-serialize.ts:47-79 | the walk back from the cursor finds that token, and null when there is none or the cursor is outside the text |
| MentionSerialize.ScanWord | apps/mobile/lib/mention-serialize.ts:122-175 | the inner scan stops at the first white space after a run's `@`, or at the end |
| MentionSerialize.LexAppend | apps/mobile/lib/mention-serialize.ts:122-175 | reading a closed prefix, or up to white space, and the rest separately gives the reading of the whole text |
| MentionSerialize.SerializeMentions | apps/mobile/lib/mention-serialize.ts:122-175 | the loop over cursor, marker index, abort and out returns the text with every run linked when the runs are the marker names in order, and the sentinel-free text otherwise |
| MentionRoundTrip.AllOrNothing | apps/mobile/lib/mention-serialize.ts:16-18 | for all inputs the result is the visible text with every visible `@name` replaced by its own link in order, or exactly the visible text |
| MentionRoundTrip.OutputHasNoSentinel | apps/mobile/lib/mention-serialize.ts:16-18 | no sentinel is in the result when none is in the marker names and ids |
| MentionRoundTrip.SpacedNameNeverLinks | apps/mobile/lib/mention-serialize.ts:122-175 | one marker whose name holds white space sends every text to the fallback |
| MentionRoundTrip.ReadsBack | apps/mobile/lib/mention-serialize.ts:85-175 | delimited literals around runs of space-free names are read back as exactly those runs |
| MentionRoundTrip.RoundTrip | apps/mobile/lib/mention-serialize.ts:9-18 | delimited literals woven with the bar's runs serialize to the literals woven with the links if and only if every name is free of white space |
| MentionRoundTrip.OneMentionPublished | apps/mobile/lib/mention-serialize.ts:155-168 | one marked `@name` alone is sent as `[@name](mention://member/id)`, likewise for agent, squad and all, and as `[name](mention://issue/id)` for an issue |
| MentionRoundTrip.PublishedMarkdown | apps/mobile/lib/mention-serialize.ts:122-175 | delimited literals around any number of marked names are sent with each name as that markdown of its own kind and id, and every other character as it was |
| MentionInput.Composer.constructor | apps/mobile/lib/use-mention-input.ts:84-103 | the hook starts with empty text, no markers and a closed bar, refs in step with state |
| MentionInput.Composer.RecomputeMentioning | apps/mobile/lib/use-mention-input.ts:105-113 | the bar is open exactly for the token at the cursor |
| MentionInput.Composer.OnChangeText | apps/mobile/lib/use-mention-input.ts:115-124 | the text and its ref are replaced and the bar recomputed at the caret; markers and selection stay |
| MentionInput.Composer.OnSelectionChange | apps/mobile/lib/use-mention-input.ts:126-135 | the selection and its ref are replaced and the bar recomputed |
| MentionInput.Composer.OnAtButtonPress | apps/mobile/lib/use-mention-input.ts:137-154 | the selection is replaced by `@`, padded with a space after a non-space, with the caret behind it |
| MentionInput.Composer.OnSelectMention | apps/mobile/lib/use-mention-input.ts:156-172 | the token is replaced by a run and a space, the marker appended, the bar closed; nothing happens without an open bar |
| MentionInput.Composer.InsertAtCursor | apps/mobile/lib/use-mention-input.ts:174-191 | the selection is replaced and the bar closed |
| MentionInput.Composer.InsertAtLineStart | apps/mobile/lib/use-mention-input.ts:193-213 | the prefix is put at the start of the caret's line, the caret shifted, the bar closed |
| MentionInput.Composer.Serialize | apps/mobile/lib/use-mention-input.ts:215-218 | sends the serialized text and changes nothing |
| MentionInput.Composer.Restore | apps/mobile/lib/use-mention-input.ts:225-232 | a snapshot brings back text, markers and selection, with the bar closed |
| MentionInput.Composer.Reset | apps/mobile/lib/use-mention-input.ts:234-241 | everything returns to the empty state |
| MentionInput.TypingOpensBarIff | apps/mobile/lib/use-mention-input.ts:105-124 | after typing, the bar shows a query if and only if `@query` stands at a word start right in front of the selection's old end, in the new text |
| MentionInput.MovingOpensBarIff | apps/mobile/lib/use-mention-input.ts:105-135 | after a selection event the same holds for the new selection's end, in the old text |
| MentionInput.AtLands | apps/mobile/lib/use-mention-input.ts:137-154 | the `@` button replaces the selected range by `@`, with a space in front exactly behind a character that is no white space; all else stays, the caret lands behind the `@` |
| MentionInput.MentionLands | apps/mobile/lib/use-mention-input.ts:156-172 | a chosen mention replaces exactly `@` and query by the mark, `@name` and a space; the caret lands behind the space; without an open bar nothing changes |
| MentionInput.InsertLands | apps/mobile/lib/use-mention-input.ts:174-191 | a toolbar insertion replaces exactly the selected range; the caret is counted back from its end |
| MentionInput.PrefixLands | apps/mobile/lib/use-mention-input.ts:193-213 | a prefix goes behind the last line break in front of the selection, or to the front of the text, and nothing else moves; the caret moves on by its length |
| MentionInput.AtButtonOpensBar | apps/mobile/lib/use-mention-input.ts:137-154 | in every state pressing `@` opens the bar with an empty query at the caret |
| MentionInput.SelectionClosesBar | apps/mobile/lib/use-mention-input.ts:126-172 | after a mention is chosen the bar is closed and the selection event that follows keeps it closed |
| MentionInput.PlainEdit | apps/mobile/lib/use-mention-input.ts:115-124 | replacing plain text by plain text between closed parts keeps every run |
| MentionInput.LinePrefixKeepsWords | apps/mobile/lib/use-mention-input.ts:193-213 | a line prefix never splits a run, wherever the caret stands |
| MentionInput.MentionSplitsWords | apps/mobile/lib/mention-serialize.ts:85-106 | a chosen mention adds one run between the runs before the token and those after it |
| MentionInput.SelectionLinksIff | apps/mobile/lib/use-mention-input.ts:156-172 | after a choice the runs still match the markers by name if and only if all runs to the right of the token show the same name |
| MentionInput.OutOfOrderSwapsLinks | apps/mobile/lib/use-mention-input.ts:156-172 | two people of one name chosen out of text order get each other's links |
| MentionOwners.LexDelimits | apps/mobile/lib/mention-serialize.ts:122-175 | whatever the buffer, the text behind a run is empty at the end or begins with white space |
| MentionOwners.WeaveInjective | apps/mobile/lib/mention-serialize.ts:9-18 | a published text determines the space-free links in it |
| MentionOwners.PublishedIff | apps/mobile/lib/mention-serialize.ts:12-18 | for every text, markers and owners of its runs, with names and ids free of white space: each run is printed as its owner's link if and only if the markers have the owners' names and links in text order, or there is no run |
| MentionOwners.SelectionKeepsOwnersIff | apps/mobile/lib/use-mention-input.ts:156-172 | where every run has its own link, it still does after a choice if and only if all owners to the right of the token have the chosen one's name and link |
| MentionInput.RunsStayLinkable | apps/mobile/lib/use-mention-input.ts:115-213 | every run of allowed events keeps the markers equal to the text's runs |
| MentionInput.EveryRunSerializes | apps/mobile/lib/use-mention-input.ts:115-218 | after every such run, sending replaces every chosen mention by its link, in the order of choosing |
| MentionShortcodes.ReadAttrs | packages/core/markdown/mention-shortcodes.ts:18-31 | the exec loop collects all `name="value"` matches, a later one of the same name winning |
| MentionShortcodes.MatchAtIff | packages/core/markdown/mention-shortcodes.ts:18 | the attribute expression matches at a position exactly what reads there as word characters, `="`, a quote-free value and `"` |
| MentionShortcodes.ExecIff | packages/core/markdown/mention-shortcodes.ts:18-31 | `exec` finds the leftmost such position from its last index on, and null if there is none |
| MentionShortcodes.ReplaceMatch | packages/core/markdown/mention-shortcodes.ts:18-31 | the callback gives a link for an id and a label and returns the match unchanged otherwise |
| MentionShortcodes.OnlyShortcodesChange | packages/core/markdown/mention-shortcodes.ts:15-31 | the text is literals around convertible shortcodes; rewriting replaces each of these by its link and leaves every literal as it was |
| MentionShortcodes.SegmentsAreShortcodes | packages/core/markdown/mention-shortcodes.ts:18-31 | every replaced segment opens with `[@` and white space, ends at its first `]`, and has an id and a label |
| MentionShortcodes.ShortcodeConverts | packages/core/markdown/mention-shortcodes.ts:4-31 | the legacy shortcode of an id and a caption becomes exactly their link, in front of any text |
| MentionShortcodes.WrittenBecomesPublished | packages/core/markdown/mention-shortcodes.ts:15-31 | a shortcode with any white space and any attributes in any order becomes the member link of its last id and last label when both are there and not empty, and stays otherwise |
| MentionShortcodes.DocumentPublished | packages/core/markdown/mention-shortcodes.ts:15-31 | the exported function on text around any number of shortcodes: every one is published and the text kept as soon as a space follows some `[@`, and nothing changes otherwise |
| MentionShortcodes.OpenerMeansRewrite | packages/core/markdown/mention-shortcodes.ts:19-20 | any text with `[@` and a space anywhere in it is rewritten |
| MentionShortcodes.OnlyOpenersChange | packages/core/markdown/mention-shortcodes.ts:19-20 | a text that changes holds `[@` and a space |
| MentionShortcodes.LegacyShortcodePublished | packages/core/markdown/mention-shortcodes.ts:4-31 | `[@ id="ID" label="NAME"]` becomes `[@NAME](mention://member/ID)` in front of any text |
| MentionShortcodes.PreprocessTwice | packages/core/markdown/mention-shortcodes.ts:15-31 | rewriting twice is rewriting once when every converted id is safe |
| MentionShortcodes.UnsafeIdReopens | packages/core/markdown/mention-shortcodes.ts:15-31 | the link of an id with a hidden opener changes on the second pass |
| MentionShortcodes.IdempotentIffSafeId | packages/core/markdown/mention-shortcodes.ts:15-31 | a shortcode is stable in every context if and only if its id holds no `[@` followed by white space |
| TimelineThread.CollectCommentIds | apps/mobile/lib/timeline-thread.ts:40-43 | the set of the comments' ids |
| TimelineThread.Partition | apps/mobile/lib/timeline-thread.ts:45-61 | entries are split into top level and replies grouped by loaded parent, orphans being top level, in input order |
| TimelineThread.CollectDescendants | apps/mobile/lib/timeline-thread.ts:63-80 | the queue loop ends and returns the generations below the root one after the other |
| TimelineThread.BuildTimelineRows | apps/mobile/lib/timeline-thread.ts:37-87 | with unique comment ids and any parents, the rows are the top-level entries with their descendants |
| TimelineThread.GenerationMembers | apps/mobile/lib/timeline-thread.ts:63-80 | the k-th generation holds exactly the replies whose k-th ancestor is the root |
| TimelineThread.GenerationsBounded | apps/mobile/lib/timeline-thread.ts:63-80 | descendants are pairwise different and fewer than the entries, so the search is finite on cyclic parents too |
| TimelineThread.DescendantsMembers | apps/mobile/lib/timeline-thread.ts:30-35 | the replies of a row are exactly the comments whose parent chain leads to its entry |
| ThreadRows.RowsAreStarts | apps/mobile/lib/timeline-thread.ts:37-61 | an entry starts a row exactly if it is no comment whose non-empty parent is a loaded comment; rows stand in input order; activities have no replies |
| ThreadRows.RepliesAre | apps/mobile/lib/timeline-thread.ts:63-87 | the replies of a row are exactly the comments that answer its comment or one of its replies, in the order of their parents and, under one parent, in input order |
| ThreadConservation.ShownExactlyWhenAnchored | apps/mobile/lib/timeline-thread.ts:37-87 | an entry is shown as often as it was given when its parent chain reaches a top-level entry, and not at all otherwise |
| ThreadConservation.CountsAgreeIffAcyclic | apps/mobile/lib/timeline-thread.ts:24-26 | the rows show a permutation of the input if and only if no comment is its own ancestor |
| ThreadConservation.MutualRepliesVanish | apps/mobile/lib/timeline-thread.ts:24-26 | of two comments that answer each other no row shows either |
| ThreadConservation.SharedIdNeverFinishes | apps/mobile/lib/timeline-thread.ts:63-80 | a root and a reply with one id keep the queue non-empty after any number of steps |
| ThreadSearch.SearchEndsIff | apps/mobile/lib/timeline-thread.ts:63-80 | for every timeline, repeated ids included, the queue drains if and only if no id reachable from the root by replies lies below itself |
| ThreadSearch.FirstStep | apps/mobile/lib/timeline-thread.ts:70-78 | an id is k + 1 replies below another exactly when it is k below one of its replies |
| ThreadOrder.BreadthFirstIsInputOrderIff | apps/mobile/lib/timeline-thread.ts:63-80 | the replies of a row come in input order if and only if, read so, their parents come in that order too |
| ThreadOrder.RepliesChronologicalIff | apps/mobile/lib/timeline-thread.ts:22-33 | on chronological input that is exactly when the replies are in chronological order |
| ThreadOrder.LateReplyComesFirst | apps/mobile/lib/timeline-thread.ts:22-33 | a second reply to the root that is younger than a reply to the first one is listed before that |
| CommentCascade.CollectCascade | packages/core/issues/mutations.ts:677-698 | the fixpoint loop ends and returns the least set that holds the deleted id and is closed under replies |
| CommentCascade.DeleteComment | packages/core/issues/mutations.ts:669-710 | the optimistic write keeps exactly the entries outside that set, in order |
| CommentCascade.CascadeIsUnique | packages/core/issues/mutations.ts:677-698 | there is only one such set |
| CommentCascade.CascadeMembers | packages/core/issues/mutations.ts:677-698 | it holds the deleted id, its direct and indirect replies, and nothing else, also on cyclic parents |
| CommentCascade.NoDanglingReply | packages/core/issues/mutations.ts:677-698 | no survivor replies to a removed entry |
| CommentCascade.DeletionKeepsThreads | apps/mobile/lib/timeline-thread.ts:45-86 | rebuilding from the survivors gives the old rows without the removed entries: no row is new and no reply moves |
| TimelineCoalesce.CoalesceTimeline | apps/mobile/lib/timeline-coalesce.ts:29-58 | the loop that pushes or overwrites the last line computes the fold |
| TimelineCoalesce.CoalesceSummarizesRuns | apps/mobile/lib/timeline-coalesce.ts:8-21 | the lines are the summaries of the maximal runs of mergeable neighbours: newest entry, counting the others |
| TimelineCoalesce.PairFoldsIff | apps/mobile/lib/timeline-coalesce.ts:8-54 | two entries become one line, the newer counting both, if and only if they are activities of equal action, actor type and actor id, no squad-leader evaluation, and at most 120000 milliseconds apart or a completed or failed task |
| TimelineCoalesce.LinesShowBlocks | apps/mobile/lib/timeline-coalesce.ts:8-54 | on all inputs each line shows a block of entries, its last one with the count; that rule holds between neighbours in a block and fails between blocks |
| TimelineCoalesce.RunPartitionExists | apps/mobile/lib/timeline-coalesce.ts:8-21 | every timeline is cut into such runs |
| TimelineCoalesce.TotalsConserved | apps/mobile/lib/timeline-coalesce.ts:48-51 | on any input, the lines count what pushed entries counted and one for every absorbed entry |
| TimelineCoalesce.CoalesceConservesFreshTotal | apps/mobile/lib/timeline-coalesce.ts:48-51 | without preset counts the sum of counts is the number of entries |
| TimelineCoalesce.KeptConserved | apps/mobile/lib/timeline-coalesce.ts:16-19 | comments and squad-leader evaluations come through unchanged and in order |
| TimelineCoalesce.FixedIffSettled | apps/mobile/lib/timeline-coalesce.ts:29-58 | the fold changes nothing if and only if no two neighbours are mergeable |
| TimelineCoalesce.CoalesceSettles | apps/mobile/lib/timeline-coalesce.ts:29-58 | on chronological input no two adjacent lines are mergeable |
| TimelineCoalesce.OnePassSufficesIff | apps/mobile/lib/timeline-coalesce.ts:29-58 | on any input the fold is idempotent if and only if no two neighbouring runs end in mergeable entries |
| TimelineCoalesce.CoalesceTwice | apps/mobile/lib/timeline-coalesce.ts:29-58 | in particular it is idempotent on chronological input |
| TimelineCoalesce.OutOfOrderNeedsTwoPasses | apps/mobile/lib/timeline-coalesce.ts:29-58 | on unordered input a second pass can merge again |
| IssueBuckets.FindIssueLocation | packages/core/issues/cache-helpers.ts:26-39 | the search with early return finds the first paginated column that holds the id |
| IssueBuckets.LocateIff | packages/core/issues/cache-helpers.ts:26-39 | in a coherent cache an issue is located exactly where it is loaded, and cancelled issues never are |
| IssueBuckets.FlattenShowsAbs | packages/core/issues/queries.ts:103-110 | the flattened list of a coherent cache holds exactly the issues of the plain map |
| IssueBuckets.AddRefines | packages/core/issues/cache-helpers.ts:41-52 | adding a placeable issue keeps coherence and is insertion in the plain map |
| IssueBuckets.AddCoherentIff | packages/core/issues/cache-helpers.ts:41-52 | adding keeps the cache coherent if and only if the issue is not loaded under another status |
| IssueBuckets.StaleCopyAppearsTwice | packages/core/issues/cache-helpers.ts:41-52 | adding an issue whose copy is loaded under another status leaves it in both columns |
| IssueBuckets.RemoveRefines | packages/core/issues/cache-helpers.ts:54-64 | removal keeps coherence and is removal from the plain map |
| IssueBuckets.PatchRefines | packages/core/issues/cache-helpers.ts:66-100 | a patch, moving or not, keeps coherence and is a patch of the plain map, an issue that becomes cancelled leaving it |
| IssueEdits.AddLands | packages/core/issues/cache-helpers.ts:40-52 | a new issue goes to the end of its own column, which counts one more; no other column changes; a known one changes nothing |
| IssueEdits.RemoveLands | packages/core/issues/cache-helpers.ts:53-69 | removal takes the one copy out of its place, that column counts one less, and nothing else changes |
| IssueEdits.PatchLands | packages/core/issues/cache-helpers.ts:71-101 | a patched issue is replaced in its place, or moved to the end of the column that the patch names, with both totals; it has the patch's value in each field the patch names and its own in the others |
| IssueEdits.PatchedFields | packages/core/issues/cache-helpers.ts:71-101 | on the plain map, field by field: the patched issue takes the patch, or is gone once cancelled, and no other changes |
| IssueEdits.PatchedAllFields | packages/core/issues/mutations.ts:414-424 | the same for a batch of ids, repeated ones included |
| IssueEdits.TotalsStayNatural | packages/core/issues/cache-helpers.ts:53-101 | in any cache a column that loses an issue counts one less, but never less than none, and one that gains an issue one more |
| IssueRuns.RunRefines | packages/core/issues/cache-helpers.ts:26-100 | over every run of add, remove, patch, batch patch and load-more: ids stay unique across columns, statuses match columns, the view is the plain map, and only load-more changes a column's count of unloaded issues |
| IssueRuns.PatchAllRefines | packages/core/issues/mutations.ts:413-418 | a batch patch is the patches one by one on the plain map |
| IssueRuns.PatchConservesTotals | packages/core/issues/cache-helpers.ts:81-99 | a status move conserves the sum of all totals |
| IssueRuns.AddTwice | packages/core/issues/cache-helpers.ts:41-52 | adding again changes nothing |
| IssueRuns.RemoveTwice | packages/core/issues/cache-helpers.ts:54-64 | removing again changes nothing |
| IssueRuns.PatchTwice | packages/core/issues/cache-helpers.ts:71-100 | patching again changes nothing, moves included |
| QueryCache.QueryClient.GetQueriesData | packages/core/issues/mutations.ts:223-223 | prefix lookup returns every entry under the prefix, and only those |
| QueryCache.EditEntries | packages/core/issues/mutations.ts:253-255 | writing the edited entries of a lookup edits exactly their keys |
| QueryCache.RestoreIsExactIff | packages/core/issues/mutations.ts:268-282 | writing snapshots back restores a store if and only if it differs from the original at snapshotted keys only and has no new key |
| IssueMutations.ResolveParent | packages/core/issues/mutations.ts:227-248 | the parent is that of the detail, else of the first list, else named by some children cache that holds the issue; none only if no such cache does |
| IssueMutations.UpdateOnMutate | packages/core/issues/mutations.ts:217-267 | the optimistic update edits exactly the lists, the detail and the resolved parent's children, and snapshots what it edits |
| IssueWrites.HintReads | packages/core/issues/mutations.ts:227-236 | the parent is the detail's when it has one, else that of the issue where the first list shows it |
| IssueWrites.UpdateWrites | packages/core/issues/mutations.ts:217-267 | lists, detail and children of that parent: the issue has the patch's value in each field it names, in its place, and no other issue, field or entry changes |
| IssueMutations.UpdateOnError | packages/core/issues/mutations.ts:268-282 | the error handler writes the snapshots back |
| IssueMutations.UpdateRollsBack | packages/core/issues/mutations.ts:217-282 | onError after onMutate is the identity on the whole query cache |
| IssueMutations.FailedUpdateLeavesNoTrace | packages/core/issues/mutations.ts:217-282 | the two handlers run in sequence leave the cache as it was |
| IssueMutations.BatchUpdateOnMutate | packages/core/issues/mutations.ts:410-440 | a batch update edits the lists, and the children caches that hold one of the issues, after snapshotting them |
| IssueWrites.BatchUpdateWrites | packages/core/issues/mutations.ts:410-440 | the same for all named issues in every list and every children cache |
| IssueMutations.BatchUpdateOnError | packages/core/issues/mutations.ts:441-452 | the error handler writes those snapshots back |
| IssueMutations.BatchUpdateRollsBack | packages/core/issues/mutations.ts:410-452 | a failed batch update restores the whole query cache |
| IssueMutations.FailedBatchUpdateLeavesNoTrace | packages/core/issues/mutations.ts:410-452 | the two handlers run in sequence leave the cache as it was |
| DeleteCache.CollectDeletedIssueCacheMetadata | packages/core/issues/delete-cache.ts:41-73 | the parents named by the detail, the lists, my lists and children caches are collected; collection fails exactly when a my-issues entry has no buckets |
| DeleteCache.PruneListCaches | packages/core/issues/delete-cache.ts:75-95 | the issue is pruned from every list and my-issues entry and nowhere else |
| DeleteCache.PruneChildrenCaches | packages/core/issues/delete-cache.ts:97-108 | the issue is pruned from the collected parents' children and nowhere else |
| DeleteCache.CleanupDeletedIssueCaches | packages/core/issues/delete-cache.ts:148-182 | with metadata passed in or freshly collected, cleanup prunes both families and removes the issue's own entries; over an entry without buckets it throws, before any write when it collects, and otherwise after the lists that come before that entry have been pruned |
| IssueCleanup.CleanupWrites | packages/core/issues/delete-cache.ts:75-168 | key by key: exactly the nine own key families of the issue are gone; lists and parents' children lack the issue and nothing else; every other entry is as it was |
| IssueCleanup.ParentsAre | packages/core/issues/delete-cache.ts:18-73 | a parent is collected exactly if it is not empty and the detail, a list, a my-issues list or a children cache names it for the issue, or it is the key of such a children cache |
| DeleteCache.GroupedBoardThrows | packages/core/issues/delete-cache.ts:41-95 | with a loaded assignee-grouped board collection throws, and cleanup with metadata throws with the plain lists already pruned |
| DeleteCache.EveryHolderIsCollected | packages/core/issues/delete-cache.ts:63-70 | collection finds every children cache that holds the issue |
| DeleteCache.CleanedList | packages/core/issues/delete-cache.ts:75-95 | every list and my list is still cached after cleanup and shows every other issue as before and the deleted one nowhere |
| DeleteCache.CleanedChildrenIff | packages/core/issues/delete-cache.ts:97-108 | for any metadata every other children cache is still there with its other issues in order, and holds the deleted issue if and only if it did and its parent was not collected |
| DeleteCache.CleanedChildren | packages/core/issues/delete-cache.ts:97-108 | with freshly collected metadata none holds the deleted issue |
| DeleteCache.CleanedFrame | packages/core/issues/delete-cache.ts:148-166 | entries of other families stay unless they belong to the deleted issue |
| IssueDeletes.DeleteOnMutate | packages/core/issues/mutations.ts:335-362 | the optimistic delete snapshots lists, detail and parents' children, prunes them and removes the detail; it writes nothing when collection throws |
| IssueCleanup.DeleteWrites | packages/core/issues/mutations.ts:335-363 | key by key: the detail is gone, lists and parents' children lack the issue and nothing else, every other entry is as it was |
| IssueDeletes.DeleteOnError | packages/core/issues/mutations.ts:363-383 | the error handler writes the snapshots back |
| IssueDeletes.DeleteRollsBackIff | packages/core/issues/mutations.ts:335-383 | onError after onMutate is the identity on the whole cache, the precondition being exact: no loaded key properly extends the issue's detail key, and no query of the program has one |
| IssueDeletes.FailedDeleteLeavesNoTrace | packages/core/issues/mutations.ts:335-383 | the two handlers in sequence leave the cache as it was, under that condition |
| IssueDeletes.BatchDeleteOnMutate | packages/core/issues/mutations.ts:481-524 | all metadata is collected before the first write, then each issue is pruned, with snapshots of lists, my lists and all parents' children |
| IssueCleanup.BatchDeleteLists | packages/core/issues/mutations.ts:481-523 | every list shows its issues without the named ones, repeated ids included |
| IssueCleanup.BatchDeleteChildren | packages/core/issues/mutations.ts:481-523 | every children cache keeps its other issues, in order |
| IssueDeletes.BatchDeleteRestore | packages/core/issues/mutations.ts:525-565 | the restore that a failed and a partial batch delete share |
| IssueDeletes.BatchDeleteRollsBack | packages/core/issues/mutations.ts:481-565 | a failed or partial batch delete restores the whole query cache |
| IssueDeletes.FailedBatchDeleteLeavesNoTrace | packages/core/issues/mutations.ts:481-565 | the two handlers in sequence leave the cache as it was |
| IssueEvents.OnIssueCreated | packages/core/issues/ws-updaters.ts:14-37 | a creation event adds the issue to every list and writes nothing else |
| IssueEvents.OnIssueUpdated | packages/core/issues/ws-updaters.ts:39-101 | an update event patches the lists, the detail, and the old parent's children unless the parent changed |
| IssueEvents.OnIssueLabelsChanged | packages/core/issues/ws-updaters.ts:114-146 | a label event replaces the labels in the lists, the detail, the issue's label list and the Gantt lists, and nothing else |
| IssueWrites.CreationWrites | packages/core/issues/ws-updaters.ts:14-37 | every list takes the created issue and every other entry stays |
| IssueWrites.HeardWrites | packages/core/issues/ws-updaters.ts:39-101 | lists, detail and the staying parent's children take the patch field by field, and no other issue, field or entry changes |
| IssueWrites.LabelsWrite | packages/core/issues/ws-updaters.ts:114-146 | lists, detail, label list and Gantt lists take the labels, and no other field or entry changes |
| IssueEvents.CreatedTwice | packages/core/issues/ws-updaters.ts:14-21 | a creation heard twice changes the cache once |
| IssueEvents.LabelsTwice | packages/core/issues/ws-updaters.ts:114-142 | labels heard twice change the cache once |
| IssueEvents.UpdateAbsorbsItsEcho | packages/core/issues/ws-updaters.ts:39-90 | after the optimistic update the server's echo of a patch that keeps the parent leaves the whole cache unchanged |
| IssueEvents.MoveEchoChangesIff | packages/core/issues/ws-updaters.ts:49-94 | the echo of a patch that names a parent changes the cache if and only if it finds that parent and the parent's loaded children cache holds the issue in a form the patch alters; clearing the parent never does |
| IssueEvents.MovedBackIsStale | packages/core/issues/ws-updaters.ts:49-94 | an issue moved back to a parent whose children cache still holds it with the other parent is changed by the echo |
| IssuePaging.MergeFirstPages | packages/core/issues/queries.ts:145-167 | each column of the union shows its pages in order, every id at its first place only |
| IssuePaging.MergedCoherentIff | packages/core/issues/queries.ts:126-167 | the union is a coherent cache if and only if no two responses report an issue under different statuses |
| IssuePaging.MovedBetweenRequests | packages/core/issues/queries.ts:126-167 | an issue that one response has under one status and another under a second one is shown in both columns |
| IssuePaging.LoadMoreExtendsPrefix | packages/core/issues/mutations.ts:89-110 | against an unmoved server list a column stays a prefix of it, grows by a page and counts what is missing |
| IssuePaging.LoadMoreCompleteIff | packages/core/issues/mutations.ts:85-110 | for any server list and any loaded column, longer ones included, load-more completes the list up to the page's end if and only if the column held the list's front, as long as the column |
| IssuePaging.PressesCompleteIff | packages/core/issues/mutations.ts:85-110 | for any column and total, some number of presses completes the column if and only if it holds the front of the server's list, as long as the column, and either counts something as missing or is as long as the list |
| IssuePaging.PressesStall | packages/core/issues/mutations.ts:85-110 | a column whose next page is all loaded while something counts as missing stays as it is for ever |
| IssuePaging.InsertedInFrontStalls | packages/core/issues/mutations.ts:85-110 | at least a page of new issues in front of a column of at least as many leaves it as it is, however often load-more is pressed |
| IssuePaging.StaleTotalDisables | packages/core/issues/mutations.ts:85-110 | a column whose total counts nothing as missing never shows the next issue of a longer list |
| IssuePaging.LoadMoreSkips | packages/core/issues/mutations.ts:85-110 | after an unheard removal of any loaded issue, any number of presses load all but the next issue, and then nothing counts as missing |
| IssuePaging.LoadMoreCoherentIff | packages/core/issues/mutations.ts:100-109 | load-more keeps the cache coherent if and only if no issue of the page is loaded in another column and the total covers the column |
| IssuePaging.LoadMoreRefines | packages/core/issues/mutations.ts:100-109 | it then adds to the plain map the issues of the page that were not in it, and touches no other column |
| IssuePaging.FetchProjectGantt | packages/core/issues/queries.ts:302-318 | at most twenty requests to any server, answers in order; a server with a fixed list gets no more requests than its length needs, and the first ten thousand items come back |
| IssuePaging.Chunked | packages/core/issues/queries.ts:417-421 | the chunks concatenate to the ids, each holding one to two hundred |
| IssuePaging.Group | packages/core/issues/queries.ts:423-434 | the responses are partitioned by parent, in order, parentless issues skipped |
| IssuePaging.ChildrenAre | packages/core/issues/queries.ts:423-434 | a parent's children are the issues that name it, each as often as given |
| IssuePaging.GroupIsDirectIff | packages/core/issues/queries.ts:400-434 | splitting changes nothing for a parent if and only if it falls into one chunk |
| IssuePaging.GroupSize | packages/core/issues/queries.ts:417-434 | a parent's children are listed once for each chunk that names it |
| IssuePaging.Hydrate | packages/core/issues/queries.ts:435-445 | missing and empty children caches are filled, everything else is untouched |
| IssuePaging.FetchAndHydrateChildrenByParents | packages/core/issues/queries.ts:412-447 | for distinct ids the whole request returns exactly each parent's children and hydrates with them |
| SortedAppend.TaskMessages.OnTaskMessage | packages/core/realtime/use-realtime-sync.ts:784-792 | a delivery is ignored if its number is known and otherwise appended and sorted in |
| SortedAppend.DeliveriesConverge | packages/core/realtime/use-realtime-sync.ts:784-792 | for any lawful order, deliveries of the same items in any order and repetition end in the same ascending cache |
| SortedAppend.TaskMessagesConverge | packages/core/realtime/use-realtime-sync.ts:784-792 | a task's list depends only on which messages arrived, and is strictly increasing |
| SortedAppend.SortTimelineEntriesAsc | packages/core/issues/timeline-sort.ts:14-22 | the array is permuted in place so that no entry stands behind a later one, by creation time and then id |
| SortedAppend.TimelineSorts | packages/core/issues/timeline-sort.ts:14-22 | the stable sort by that comparator permutes and orders every list of entries, equal ids and times included |
| SortedAppend.AppendComment | packages/core/issues/mutations.ts:607-628 | a created comment is added once, in order, to a loaded timeline only |
| SortedAppend.TimelineConverges | packages/core/issues/mutations.ts:624-628 | mutation results and broadcasts with distinct ids converge to one timeline in any order and repetition |
| Inbox.Grouped | packages/core/inbox/queries.ts:38-50 | the loop groups live items by key, groups in order of their first item |
| Inbox.DeduplicateInboxItems | packages/core/inbox/queries.ts:38-59 | takes the head of each group sorted newest first, and sorts the heads |
| Inbox.OneLinePerKey | apps/mobile/lib/inbox-display.ts:67-88 | exactly one line per live key, the newest of its group, newest lines first |
| InboxLines.LinesAreFirstNewest | packages/core/inbox/queries.ts:38-59 | an item is shown exactly if it is live and the newest of its issue, or of its own id without one, and the first of several equally new ones |
| InboxLines.TiesByFirstItem | packages/core/inbox/queries.ts:38-59 | equally new lines stand in the order in which their issues first appear in the list |
| Inbox.DeduplicateTwice | packages/core/inbox/queries.ts:38-59 | deduplicating again changes nothing |
| Inbox.InboxCache.ArchiveOnMutate | packages/core/inbox/mutations.ts:34-48 | marks the item and all items of its issue archived and returns the list before |
| InboxLines.ArchiveMarks | packages/core/inbox/mutations.ts:38-46 | item by item: archived are the item itself and, when the first item of that id has a non-empty issue, all items of that issue; nothing else changes |
| Inbox.InboxCache.MarkAllReadOnMutate | packages/core/inbox/mutations.ts:63-72 | item by item: live items become read, archived ones stay as they are, none is moved or lost; the list before is returned |
| Inbox.InboxCache.OnError | packages/core/inbox/mutations.ts:49-51 | a loaded snapshot is written back |
| Inbox.ArchiveCommutesIff | packages/core/inbox/mutations.ts:34-48 | deduplicating after archiving drops just that line if and only if every live item with its key is hit |
| Inbox.ArchiveRemovesOneLine | packages/core/inbox/mutations.ts:37-46 | it always does when issue ids are non-empty and no item's id |
| Inbox.MarkAllReadClearsCount | packages/core/inbox/mutations.ts:63-72 | the unread count over the deduplicated list becomes zero |
| InboxLines.BadgeCountsLines | packages/core/inbox/queries.ts:19-31 | the count is the number of shown lines that are not read |
| ChatCache.ChatCaches.ApplyChatDone | packages/core/realtime/use-realtime-sync.ts:88-146 | inserts a carried message into both loaded caches unless known, and empties the pending record |
| ChatCache.DoneAppends | packages/core/realtime/use-realtime-sync.ts:96-146 | one message with role assistant and the event's content, task, elapsed time and own time or else now goes to the end of the session's loaded list and first page unless its id is known there; all else stays and nothing is pending |
| ChatCache.DoneWithoutMessage | packages/core/realtime/use-realtime-sync.ts:96-121 | without a message id or content the event only clears the pending record |
| ChatCache.ChatCaches.OnTaskQueued | packages/core/realtime/use-realtime-sync.ts:853-865 | the pending record takes the queued task |
| ChatCache.ChatCaches.OnTaskStage | packages/core/realtime/use-realtime-sync.ts:873-920 | a stage event writes the status of its own task only |
| ChatCache.ChatCaches.OnTaskEnded | packages/core/realtime/use-realtime-sync.ts:927-967 | cancelled and failed empty the pending record |
| ChatCache.PendingWrites | packages/core/realtime/use-realtime-sync.ts:853-967 | queued writes task and status and keeps the time, a stage event writes the status of its own task, an end empties the record; nothing else changes |
| ChatCache.RunStaysDuplicateFree | packages/core/realtime/use-realtime-sync.ts:88-146 | over every run of chat events message ids stay unique in the flat list and across all pages |
| ChatCache.DoneLands | packages/core/realtime/use-realtime-sync.ts:96-121 | after chat:done with a message every loaded cache holds it and nothing is pending |
| ChatCache.LandedPersists | packages/core/realtime/use-realtime-sync.ts:88-146 | a message that has landed stays in the loaded caches over every run of events |
| ChatCache.ReplayIff | packages/core/realtime/use-realtime-sync.ts:88-146 | after chat:done and any events, a replay touches no message and changes the caches if and only if the session's last queued, done or ended event since was a queued one |
| ChatCache.DoneTwice | packages/core/realtime/use-realtime-sync.ts:88-146 | chat:done twice in a row is chat:done once |
| ChatCache.OtherTasksStageNothing | packages/core/realtime/use-realtime-sync.ts:873-920 | dispatch, running and waiting events of another task change nothing |
| ChatCache.PendingBelongsToOwner | packages/core/realtime/use-realtime-sync.ts:853-936 | over every run the pending record names the task that the session's last queued, done or ended event left |
| ChatCache.LateReplayDropsNextTask | packages/core/realtime/use-realtime-sync.ts:120-121 | a late chat:done clears the record of the task queued since |
| Recency.ViewedIssues.Push | apps/mobile/data/viewed-issues-store.ts:34-44 | the issue moves to the front of its workspace's list, cut at ten |
| Recency.ViewedIssues.Remove | apps/mobile/data/viewed-issues-store.ts:45-53 | the issue leaves its workspace's list |
| Recency.BoundedRefinesUnbounded | apps/mobile/data/viewed-issues-store.ts:34-44 | cutting after every view gives the front of the uncut list of distinct views, latest first |
| Recency.ViewedIssuesAreRecent | apps/mobile/data/viewed-issues-store.ts:34-44 | after any history the list is its last ten distinct issues, latest first |
| RecentContext.EntryKeyInjective | packages/core/chat/recent-context-store.ts:32-34 | keys are equal exactly for equal type and id |
| RecentContext.RecentContexts.RecordVisit | packages/core/chat/recent-context-store.ts:40-74 | the visit goes to the front of its bucket, cut at twenty, and beyond fifty workspaces the oldest is dropped |
| RecentContext.FindOldest | packages/core/chat/recent-context-store.ts:62-68 | the reduce over the ids is the left-to-right search for a smaller head |
| RecentContext.OldestIsFirstLeast | packages/core/chat/recent-context-store.ts:64-68 | it finds a workspace with the least head, the first inserted of several |
| RecentContext.RecentContexts.ForgetContext | packages/core/chat/recent-context-store.ts:75-89 | the key is dropped, and the workspace with its last key |
| RecentContext.ForgetRemovesOneKey | packages/core/chat/recent-context-store.ts:75-89 | exactly one key goes, other workspaces stay as they are, and no empty bucket is left |
| RecentContext.RecentContexts.PruneWorkspaces | packages/core/chat/recent-context-store.ts:90-100 | exactly the active workspaces stay, buckets and order unchanged |
| RecentContext.JustVisitedEvictedIff | packages/core/chat/recent-context-store.ts:62-71 | a visit evicts its own workspace if and only if the store was full without it and the clock reads less than every head |
| RecentContext.ClockSetBackLosesVisit | packages/core/chat/recent-context-store.ts:62-71 | after visits to fifty workspaces, a visit to one more with the clock set back is lost at once |
| RecentContext.EvictionTakesLeastRecent | packages/core/chat/recent-context-store.ts:62-71 | in any state a visit drops at most one other workspace, only from a full store for a new one, and none that is kept has an older newest context |
| RecentContext.HeadsDiffer | packages/core/chat/recent-context-store.ts:40-100 | after any run whose visits come later and later, with forgets and prunes between them, no two workspaces have equal heads |
| RecentContext.EvictionIsDetermined | packages/core/chat/recent-context-store.ts:57-71 | in such a run every workspace that a visit keeps has a strictly more recent head than the evicted one |
| RecentContext.EveryRunIsBounded | packages/core/chat/recent-context-store.ts:40-100 | over every run with a clock that never goes back: at most fifty workspaces, buckets of one to twenty different keys newest first, and no visit evicts itself |
| RecentContext.BucketIsRecent | packages/core/chat/recent-context-store.ts:40-55 | without forgets, pruning or eviction a bucket is the last twenty distinct keys visited, latest first |
| RecentContext.KeepsMostRecentWorkspaces | packages/core/chat/recent-context-store.ts:57-71 | over runs of visits with a strictly rising clock the workspaces kept are exactly the last fifty distinct ones visited |
| WorkspaceStorage.IsolatedIff | packages/core/platform/workspace-storage.ts:106-117 | two slugs share a storage entry if and only if one of them with its colon ends the other |
| WorkspaceStorage.ColonFreeSlugsAreIsolated | packages/core/platform/workspace-storage.ts:106-117 | different colon-free slugs share no entry, whatever the keys contain |
| WorkspaceStorage.Workspace.SetCurrentWorkspace | packages/core/platform/workspace-storage.ts:34-64 | an equal slug updates the id alone; a new one queues each kind of task unless it is pending |
| WorkspaceStorage.Workspace.RunMicrotask | packages/core/platform/workspace-storage.ts:44-63 | a task clears its flag and calls every function with the slug current at that time |
| WorkspaceStorage.Workspace.SubscribeToCurrentSlug | packages/core/platform/workspace-storage.ts:80-87 | the subscriber is added once |
| WorkspaceStorage.Workspace.UnsubscribeFromCurrentSlug | packages/core/platform/workspace-storage.ts:84-86 | the subscriber is removed |
| WorkspaceStorage.Workspace.RegisterForWorkspaceRehydration | packages/core/platform/workspace-storage.ts:90-92 | the store's function is appended |
| WorkspaceStorage.Workspace.GetItem | packages/core/platform/workspace-storage.ts:108-109 | reads the current workspace's entry, null without one |
| WorkspaceStorage.Workspace.SetNamespacedItem | packages/core/platform/workspace-storage.ts:110-112 | writes the current workspace's entry, nothing without one |
| WorkspaceStorage.Workspace.RemoveNamespacedItem | packages/core/platform/workspace-storage.ts:113-115 | removes the current workspace's entry, nothing without one |
| WorkspaceStorage.Workspace.ClearWorkspaceStorage | packages/core/platform/storage-cleanup.ts:23-30 | removes the listed keys of one slug |
| WorkspaceStorage.EveryRunSettles | packages/core/platform/workspace-storage.ts:34-92 | over every run a pending flag means one queued task of its kind, and without it every subscriber and store is up to date |
| WorkspaceStorage.QuietMeansInformed | packages/core/platform/workspace-storage.ts:15-63 | at most one task of each kind is queued, whoever is behind has one coming, and an empty queue means all have the current slug |
| WorkspaceStorage.SwitchQueues | packages/core/platform/workspace-storage.ts:34-64 | an equal slug queues nothing; a new one queues, telling first, each kind of task that is not pending; nobody is told before a task runs |
| WorkspaceStorage.TickInforms | packages/core/platform/workspace-storage.ts:44-63 | a task tells exactly the subscribers, or rehydrates exactly the stores, with the slug current now |
| WorkspaceStorage.SubscribersAreASet | packages/core/platform/workspace-storage.ts:80-87 | over every run a function is in the set, once, exactly while it is subscribed |
| WorkspaceStorage.StoresAreRegistered | packages/core/platform/workspace-storage.ts:90-92 | over every run the stores to rehydrate are those registered, in order |
| WorkspaceStorage.ReadsLastWritten | packages/core/platform/workspace-storage.ts:94-117 | over every run a read gives the last value written under that slug, whatever isolated slugs wrote, removed or cleared |
| WorkspaceStorage.ColonFreeRunsKeepApart | packages/core/platform/workspace-storage.ts:106-117 | runs over colon-free slugs always qualify for that |
| WorkspaceStorage.InactiveRunsStoreNothing | packages/core/platform/workspace-storage.ts:94-117 | until a workspace is active nothing is stored, not even under a bare key |
| WorkspaceStorage.SurvivesCleanupIff | packages/core/platform/storage-cleanup.ts:4-30 | in every run, what was written just before a cleanup is read afterwards if and only if the list does not name its key |
| WorkspaceStorage.ListedKeys | packages/core/platform/storage-cleanup.ts:10-21 | the nine keys that a cleanup removes |
| WorkspaceStorage.DraftsSurviveCleanup | packages/core/issues/stores/comment-draft-store.ts:68-70 | in every run comment drafts survive the cleanup |
| AgentPresence.CountTasks | packages/core/agents/derive-presence.ts:59-77 | one pass counts running tasks, and queued, dispatched and parked ones together |
| AgentPresence.DeriveAgentPresenceDetail | packages/core/agents/derive-presence.ts:96-121 | archived wins over runtime and tasks; otherwise availability and workload are derived independently |
| AgentPresence.WorkloadMeans | packages/core/agents/derive-presence.ts:37-121 | working means a running task, idle means archived or only finished tasks, reachable means a live agent on an online runtime |
| AgentPresence.HealthIff | packages/core/runtimes/derive-health.ts:8-28 | online by status; else lost just now under 300000 milliseconds, about to be collected over 518400000, counted from the epoch when never seen |
| AgentPresence.AvailabilityIff | packages/core/agents/derive-presence.ts:26-121 | archived, reachable, unstable or unreachable by archiving and the runtime alone |
| AgentPresence.BuildPresenceMap | packages/core/agents/derive-presence.ts:126-155 | the single pass gives every agent the detail of its last runtime entry and its own tasks |
| AgentPresence.PresenceMapShows | packages/core/agents/derive-presence.ts:126-155 | in terms of the rows: the last row of an id decides on archiving and capacity, and the counts are the numbers of its running tasks, and of its queued, dispatched and parked ones |
| AgentPresence.MapAgreesIff | packages/core/agents/use-agent-presence.ts:149-159 | for every id, map and search agree if and only if the id's first and last agent are both archived or not, of one capacity and, unless archived, equally available by first and last runtime |
| AgentPresence.PresenceMapAgreesWithSearch | packages/core/agents/use-agent-presence.ts:149-159 | with unique ids the map equals the find-and-filter derivation for every id, missing agents included |
| AgentPresence.RepeatedAgentDisagrees | packages/core/agents/use-agent-presence.ts:149-159 | for two agents of one id and different capacities every presence map differs from the search |
| AgentActivity.DeriveAgentActivity | packages/core/agents/use-agent-activity.ts:126-161 | each of the thirty slots is the sum of the buckets of its day, undated and older buckets being skipped; with the age in days |
| AgentActivity.SeriesAddsRow | packages/core/agents/use-agent-activity.ts:126-148 | thirty empty slots without rows; each row adds its counts to the slot for as many times 86400000 milliseconds as its midnight lies back, if it has a date and that is one of the thirty, and to no other |
| AgentActivity.DaysSinceCreated | packages/core/agents/use-agent-activity.ts:150-155 | whole days of age between zero and thirty, thirty for an unreadable date |
| AgentActivity.SummarizeActivityWindow | packages/core/agents/use-agent-activity.ts:172-192 | the tail of the series, clamped, with its totals; empty for no days and for an agent without activity; the asked-for window comes back unclamped |
| AgentActivity.WindowTotals | packages/core/agents/use-agent-activity.ts:126-192 | the totals of a window are the tasks of exactly the days it spans |
| AgentActivity.OwnSlotIff | packages/core/agents/use-agent-activity.ts:138-145 | the day k back has its own slot if and only if the k days since are at least k and less than k + 1 times twenty-four hours long |
| AgentActivity.SharedSlotIff | packages/core/agents/use-agent-activity.ts:138-145 | two days share a slot if and only if no multiple of twenty-four hours lies between their midnights |
| AgentActivity.ClockChange | packages/core/agents/use-agent-activity.ts:138-145 | one short day moves it and every older day one slot later; one long day moves none |
| AgentActivity.BuildActivityMap | packages/core/agents/use-agent-activity.ts:92-118 | every agent gets the series of its own buckets and its own age |
| AgentActivity.MineAre | packages/core/agents/use-agent-activity.ts:97-104 | an agent's rows are those with its id, each as often as given |
| AgentActivity.CreatedAtIs | packages/core/agents/use-agent-activity.ts:106-117 | the age shown is that of the last agent with the id |

## Left out

- Strings are sequences of `char`; UTF-16 surrogate halves are not modelled. No modelled scan cuts inside a pair unless a caret does.
- Dates are integers, also the `created_at` strings that `packages/core/issues/timeline-sort.ts` compares as strings: only their total order matters there. Unparsable dates appear only where the source has a branch for them. Local midnight is a parameter.
- The raw `setText` and `setSelection` that the composer also returns, and handlers that still hold an earlier render's `mentioning`: the class applies events one at a time.
- QueryCache.QueryClient.GetQueriesData: does not fix the order of the entries; every theorem holds for all orders.
- IssueEvents.UpdateAbsorbsItsEcho: takes the list that is read first to be the same one both times, as the cache's stable order makes it; a patch that names a parent is the subject of MoveEchoChangesIff.
- MentionInput.Composer.InsertAtCursor: an offset that would put the caret in front of the text is not modelled, since a selection is a pair of natural numbers.
- RecentContext.KeepsMostRecentWorkspaces: speaks of runs of visits alone; after a forget the newest remaining context ranks a workspace, and EvictionTakesLeastRecent and EvictionIsDetermined say what eviction does then.
- DeleteCache.CleanedList: takes the deleted id to be neither of the two segment names `list` and `my`; ids are UUIDs.
- DeleteCache.CleanedChildrenIff: takes the deleted id not to be the segment name `children`; the issue's own children entry is removed.
- ThreadOrder.RepliesChronologicalIff: takes the entries' times to be different; BreadthFirstIsInputOrderIff covers equal times, in terms of input order.
- IssueBuckets.PatchRefines: knows four of the issue's fields; the other fields are copied by the same spread.
- Query invalidation, refetching, cancelling and observers: only get, set, remove and prefix lookup are modelled, so a rollback theorem says nothing about writes by others in between.
- The recent-issues store that delete cleanup also notifies, and the metadata event, which writes a field this model does not have to the lists and the detail.
- fetchAllMyAssigneeGroups: merges groups the way MergeFirstPages merges columns, with a composite key.
- Sorting is stable insertion; the engine's own algorithm is not modelled, only its specified result.
- Object key order that JavaScript changes for integer-like keys: workspace ids are UUIDs.
- WorkspaceStorage.Workspace.RunMicrotask: the called subscribers and rehydrate functions do not switch workspaces themselves.
- WorkspaceStorage.Workspace.SubscribeToCurrentSlug: the subscriber is taken to read the current slug as it subscribes, and a persisted store to hydrate when it registers.
- Network, persistence formats, React rendering, timers, logging, permissions, label tables, elapsed-time text, version comparison and the Go server.
