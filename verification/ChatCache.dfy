/** The chat caches under WebSocket events (packages/core/realtime/use-realtime-sync.ts). */
module ChatCache {
  import opened Text

  datatype Message = Message(
    id: string, role: string, content: string, taskId: string, createdAt: int, elapsedMs: Option<int>)

  datatype Page = Page(messages: seq<Message>, hasMore: bool)

  /** The pending-task record; the empty object means that nothing is pending. */
  datatype Pending = Pending(taskId: Option<string>, status: Option<string>, createdAt: Option<string>)

  const NOTHING_PENDING := Pending(None, None, None)

  /** Loaded message lists, loaded page lists and pending records, by session. */
  datatype State = State(
    messages: map<string, seq<Message>>, pages: map<string, seq<Page>>, pending: map<string, Pending>)

  datatype DonePayload = DonePayload(
    session: string, taskId: string, messageId: Option<string>, content: Option<string>,
    createdAt: Option<int>, elapsedMs: Option<int>)

  // ---------------------------------------------------------------------------
  // The handlers
  // ---------------------------------------------------------------------------

  predicate HasId(ms: seq<Message>, id: string) {
    exists i :: 0 <= i < |ms| && ms[i].id == id
  }

  predicate AnyPageHasId(pages: seq<Page>, id: string) {
    exists k :: 0 <= k < |pages| && HasId(pages[k].messages, id)
  }

  function Append(old_: seq<Message>, m: Message): seq<Message> {
    if HasId(old_, m.id) then old_ else old_ + [m]
  }

  function PatchLatestPage(pages: seq<Page>, m: Message): seq<Page> {
    if pages == [] || AnyPageHasId(pages, m.id) then pages
    else [pages[0].(messages := pages[0].messages + [m])] + pages[1..]
  }

  predicate CarriesMessage(p: DonePayload) {
    p.messageId.Some? && p.messageId.value != "" && p.content.Some?
  }

  function Assistant(p: DonePayload, now: int): Message
    requires CarriesMessage(p)
  {
    Message(p.messageId.value, "assistant", p.content.value, p.taskId,
            if p.createdAt.Some? then p.createdAt.value else now, p.elapsedMs)
  }

  function Insert(s: State, session: string, m: Message): State {
    s.(messages := if session in s.messages then s.messages[session := Append(s.messages[session], m)] else s.messages,
       pages := if session in s.pages then s.pages[session := PatchLatestPage(s.pages[session], m)] else s.pages)
  }

  function Cleared(s: State, session: string): State {
    s.(pending := s.pending[session := NOTHING_PENDING])
  }

  function Done(s: State, p: DonePayload, now: int): State {
    Cleared(if CarriesMessage(p) then Insert(s, p.session, Assistant(p, now)) else s, p.session)
  }

  function PendingOf(s: State, session: string): Pending {
    if session in s.pending then s.pending[session] else NOTHING_PENDING
  }

  function Queued(s: State, session: string, task: string): State {
    if session == "" then s
    else s.(pending := s.pending[session := PendingOf(s, session).(taskId := Some(task), status := Some("queued"))])
  }

  /** task:dispatch and task:running write "running"; task:waiting_local_directory its own name. */
  function Staged(s: State, session: string, task: string, status: string): State {
    if session == "" || session !in s.pending || s.pending[session].taskId != Some(task) then s
    else s.(pending := s.pending[session := s.pending[session].(status := Some(status))])
  }

  /** task:cancelled and task:failed. */
  function Ended(s: State, session: string): State {
    if session == "" then s else Cleared(s, session)
  }

  class ChatCaches {
    var messages: map<string, seq<Message>>
    var pages: map<string, seq<Page>>
    var pending: map<string, Pending>

    function Now(): State
      reads this
    {
      State(messages, pages, pending)
    }

    constructor (s: State)
      ensures Now() == s
    {
      messages, pages, pending := s.messages, s.pages, s.pending;
    }

    method ApplyChatDone(p: DonePayload, now: int)
      modifies this
      ensures Now() == Done(old(Now()), p, now)
    {
      if p.messageId.Some? && p.messageId.value != "" && p.content.Some? {
        var assistant := Assistant(p, now);
        if p.session in messages {
          var old_ := messages[p.session];
          if !HasId(old_, assistant.id) {
            messages := messages[p.session := old_ + [assistant]];
          }
        }
        if p.session in pages {
          pages := pages[p.session := PatchLatestPage(pages[p.session], assistant)];
        }
      }
      pending := pending[p.session := NOTHING_PENDING];
    }

    method OnTaskQueued(session: string, task: string)
      modifies this
      ensures Now() == Queued(old(Now()), session, task)
    {
      if session == "" {
        return;
      }
      var old_ := if session in pending then pending[session] else NOTHING_PENDING;
      pending := pending[session := old_.(taskId := Some(task), status := Some("queued"))];
    }

    method OnTaskStage(session: string, task: string, status: string)
      modifies this
      ensures Now() == Staged(old(Now()), session, task, status)
    {
      if session == "" || session !in pending || pending[session].taskId != Some(task) {
        return;
      }
      pending := pending[session := pending[session].(status := Some(status))];
    }

    method OnTaskEnded(session: string)
      modifies this
      ensures Now() == Ended(old(Now()), session)
    {
      if session == "" {
        return;
      }
      pending := pending[session := NOTHING_PENDING];
    }
  }

  // ---------------------------------------------------------------------------
  // Runs of events
  // ---------------------------------------------------------------------------

  datatype Event =
    | ChatDone(payload: DonePayload, now: int)
    | TaskQueued(session: string, task: string)
    | TaskStage(session: string, task: string, status: string)
    | TaskEnded(session: string)

  function Step(s: State, e: Event): State {
    match e
    case ChatDone(p, now) => Done(s, p, now)
    case TaskQueued(session, task) => Queued(s, session, task)
    case TaskStage(session, task, status) => Staged(s, session, task, status)
    case TaskEnded(session) => Ended(s, session)
  }

  function Run(s: State, events: seq<Event>): State {
    if events == [] then s else Step(Run(s, events[..|events| - 1]), events[|events| - 1])
  }

  predicate UniqueMessages(ms: seq<Message>) {
    forall i, j :: 0 <= i < j < |ms| ==> ms[i].id != ms[j].id
  }

  /** The messages of all loaded pages, first page first. */
  function AllMessages(pages: seq<Page>): seq<Message> {
    if pages == [] then [] else pages[0].messages + AllMessages(pages[1..])
  }

  /** No message is loaded twice, in the flat list or across the pages. */
  predicate DuplicateFree(s: State) {
    && (forall session :: session in s.messages ==> UniqueMessages(s.messages[session]))
    && (forall session :: session in s.pages ==> UniqueMessages(AllMessages(s.pages[session])))
  }

  lemma {:induction false} AllMessagesIds(pages: seq<Page>, id: string)
    ensures HasId(AllMessages(pages), id) <==> AnyPageHasId(pages, id)
  {
    if pages != [] {
      AllMessagesIds(pages[1..], id);
      var head, tail := pages[0].messages, AllMessages(pages[1..]);
      HasIdAppend(head, tail, id);
      assert AnyPageHasId(pages, id) <==> HasId(head, id) || AnyPageHasId(pages[1..], id) by {
        if k :| 0 <= k < |pages| && HasId(pages[k].messages, id) {
          assert k > 0 ==> pages[1..][k - 1] == pages[k];
        }
        if k :| 0 <= k < |pages[1..]| && HasId(pages[1..][k].messages, id) {
          assert pages[k + 1] == pages[1..][k];
        }
      }
    }
  }

  lemma HasIdAppend(a: seq<Message>, b: seq<Message>, id: string)
    ensures HasId(a + b, id) <==> HasId(a, id) || HasId(b, id)
  {
    var c := a + b;
    if i :| 0 <= i < |c| && c[i].id == id {
      assert if i < |a| then a[i].id == id else b[i - |a|].id == id;
    }
    if i :| 0 <= i < |a| && a[i].id == id {
      assert c[i].id == id;
    }
    if i :| 0 <= i < |b| && b[i].id == id {
      assert c[|a| + i].id == id;
    }
  }

  lemma UniqueInsert(a: seq<Message>, b: seq<Message>, m: Message)
    requires UniqueMessages(a + b) && !HasId(a + b, m.id)
    ensures UniqueMessages((a + [m]) + b)
  {
    var c, d := a + b, (a + [m]) + b;
    forall i, j | 0 <= i < j < |d|
      ensures d[i].id != d[j].id
    {
      var i', j' := if i <= |a| then i else i - 1, if j <= |a| then j else j - 1;
      assert i != |a| ==> d[i] == c[i'];
      assert j != |a| ==> d[j] == c[j'];
    }
  }

  lemma PatchKeepsUnique(pages: seq<Page>, m: Message)
    requires UniqueMessages(AllMessages(pages))
    ensures UniqueMessages(AllMessages(PatchLatestPage(pages, m)))
  {
    hide UniqueMessages, HasId, AnyPageHasId;
    if pages != [] && !AnyPageHasId(pages, m.id) {
      AllMessagesIds(pages, m.id);
      var head, tail := pages[0].messages, AllMessages(pages[1..]);
      UniqueInsert(head, tail, m);
      var next := [pages[0].(messages := head + [m])] + pages[1..];
      assert next[1..] == pages[1..];
    }
  }

  lemma AppendKeepsUnique(ms: seq<Message>, m: Message)
    requires UniqueMessages(ms)
    ensures UniqueMessages(Append(ms, m))
  {
  }

  lemma StepStaysDuplicateFree(s: State, e: Event)
    requires DuplicateFree(s)
    ensures DuplicateFree(Step(s, e))
  {
    hide UniqueMessages, PatchLatestPage, Append, AllMessages;
    if e.ChatDone? && CarriesMessage(e.payload) {
      var m, session := Assistant(e.payload, e.now), e.payload.session;
      if session in s.messages {
        AppendKeepsUnique(s.messages[session], m);
      }
      if session in s.pages {
        PatchKeepsUnique(s.pages[session], m);
      }
    }
  }

  /** Over every run, replays and all, no message is shown twice. */
  lemma {:induction false} RunStaysDuplicateFree(s: State, events: seq<Event>)
    requires DuplicateFree(s)
    ensures DuplicateFree(Run(s, events))
  {
    hide DuplicateFree, Step;
    if events != [] {
      RunStaysDuplicateFree(s, events[..|events| - 1]);
      StepStaysDuplicateFree(Run(s, events[..|events| - 1]), events[|events| - 1]);
    }
  }

  // ---------------------------------------------------------------------------
  // chat:done lands once
  // ---------------------------------------------------------------------------

  /** Every loaded cache of the session holds the message. */
  predicate Landed(s: State, p: DonePayload) {
    CarriesMessage(p) ==>
      && (p.session in s.messages ==> HasId(s.messages[p.session], p.messageId.value))
      && (p.session in s.pages && s.pages[p.session] != [] ==> AnyPageHasId(s.pages[p.session], p.messageId.value))
  }

  lemma PatchedPageHolds(pages: seq<Page>, m: Message)
    requires pages != []
    ensures PatchLatestPage(pages, m) != [] && AnyPageHasId(PatchLatestPage(pages, m), m.id)
  {
    if !AnyPageHasId(pages, m.id) {
      var next := PatchLatestPage(pages, m);
      assert next[0].messages[|pages[0].messages|] == m;
      assert HasId(next[0].messages, m.id);
    }
  }

  lemma AppendHolds(ms: seq<Message>, m: Message)
    ensures HasId(Append(ms, m), m.id)
  {
    if !HasId(ms, m.id) {
      assert Append(ms, m)[|ms|] == m;
    }
  }

  lemma DoneLands(s: State, p: DonePayload, now: int)
    ensures Landed(Done(s, p, now), p)
    ensures PendingOf(Done(s, p, now), p.session) == NOTHING_PENDING
  {
    hide PatchLatestPage, HasId, AnyPageHasId, Append;
    if CarriesMessage(p) {
      var m := Assistant(p, now);
      if p.session in s.messages {
        AppendHolds(s.messages[p.session], m);
      }
      if p.session in s.pages && s.pages[p.session] != [] {
        PatchedPageHolds(s.pages[p.session], m);
      } else if p.session in s.pages {
        assert PatchLatestPage([], m) == [] by { PatchNoPages(m); }
      }
    }
  }

  lemma PatchNoPages(m: Message)
    ensures PatchLatestPage([], m) == []
  {
  }

  /** What a done event carries is the assistant's message, with the event's own time if it has one. */
  predicate Carries(m: Message, p: DonePayload, now: int) {
    && p.messageId == Some(m.id) && m.role == "assistant" && p.content == Some(m.content)
    && m.taskId == p.taskId && m.elapsedMs == p.elapsedMs
    && m.createdAt == (if p.createdAt.Some? then p.createdAt.value else now)
  }

  /** A done event with a message puts it at the end of the session's flat list, and at the end of the first page,
      wherever these are loaded and do not hold its id; nothing else of any list or page changes. */
  lemma DoneAppends(s: State, p: DonePayload, now: int) returns (m: Message)
    requires p.messageId.Some? && p.messageId.value != "" && p.content.Some?
    ensures Carries(m, p, now)
    ensures var t := Done(s, p, now);
            && t.messages.Keys == s.messages.Keys && t.pages.Keys == s.pages.Keys
            && t.pending == s.pending[p.session := Pending(None, None, None)]
            && (forall k :: k in s.messages ==>
                  t.messages[k] == if k == p.session && forall x :: x in s.messages[k] ==> x.id != m.id
                                   then s.messages[k] + [m] else s.messages[k])
            && (forall k :: k in s.pages ==>
                  if k == p.session && s.pages[k] != []
                     && (forall g, x :: g in s.pages[k] && x in g.messages ==> x.id != m.id)
                  then
                    && |t.pages[k]| == |s.pages[k]| && t.pages[k][1..] == s.pages[k][1..]
                    && t.pages[k][0] == Page(s.pages[k][0].messages + [m], s.pages[k][0].hasMore)
                  else t.pages[k] == s.pages[k])
  {
    m := Assistant(p, now);
  }

  /** A queued event writes task and status into the session's record and keeps its time; a stage event writes the
      status into the record of its own task; both leave every other record, and all messages, alone. */
  lemma PendingWrites(s: State, session: string, task: string, status: string)
    requires session != ""
    ensures var time := if session in s.pending then s.pending[session].createdAt else None;
            var record := Pending(Some(task), Some("queued"), time);
            Queued(s, session, task) == s.(pending := s.pending[session := record])
    ensures Staged(s, session, task, status)
         == if session in s.pending && s.pending[session].taskId == Some(task)
            then s.(pending := s.pending[session := Pending(Some(task), Some(status), s.pending[session].createdAt)])
            else s
    ensures Ended(s, session) == s.(pending := s.pending[session := Pending(None, None, None)])
  {
  }

  /** Without a message the done event only clears the pending record. */
  lemma DoneWithoutMessage(s: State, p: DonePayload, now: int)
    requires p.messageId.None? || p.messageId.value == "" || p.content.None?
    ensures Done(s, p, now) == s.(pending := s.pending[p.session := Pending(None, None, None)])
  {
  }

  /** Where the message stands, chat:done changes the caches exactly when it throws a pending record away. */
  lemma LandedReplayIff(s: State, p: DonePayload, now: int)
    requires Landed(s, p) && p.session in s.pending
    ensures Done(s, p, now) == s <==> s.pending[p.session] == NOTHING_PENDING
  {
    hide HasId, AnyPageHasId;
    assert s.pending[p.session := NOTHING_PENDING] == s.pending <==> s.pending[p.session] == NOTHING_PENDING by {
      assert s.pending[p.session := NOTHING_PENDING][p.session] == NOTHING_PENDING;
    }
    if CarriesMessage(p) {
      LandedStays(s, p, now);
    }
  }

  lemma LandedStays(s: State, p: DonePayload, now: int)
    requires Landed(s, p) && CarriesMessage(p)
    ensures Insert(s, p.session, Assistant(p, now)) == s
  {
    hide HasId, AnyPageHasId;
    var m := Assistant(p, now);
    if p.session in s.messages {
      assert s.messages[p.session := Append(s.messages[p.session], m)] == s.messages;
    }
    if p.session in s.pages {
      assert s.pages[p.session := PatchLatestPage(s.pages[p.session], m)] == s.pages;
    }
  }

  /** A chat:done delivered twice in a row is delivered once. */
  lemma DoneTwice(s: State, p: DonePayload, now: int, later: int)
    ensures Done(Done(s, p, now), p, later) == Done(s, p, now)
  {
    hide Done;
    DoneLands(s, p, now);
    DoneHasPending(s, p, now);
    LandedReplayIff(Done(s, p, now), p, later);
  }

  lemma DoneHasPending(s: State, p: DonePayload, now: int)
    ensures p.session in Done(s, p, now).pending
    ensures Done(s, p, now).pending[p.session] == NOTHING_PENDING
  {
  }

  // ---------------------------------------------------------------------------
  // Whose pending record it is
  // ---------------------------------------------------------------------------

  /** Stage events of another task change nothing. */
  lemma OtherTasksStageNothing(s: State, session: string, task: string, status: string)
    requires PendingOf(s, session).taskId != Some(task)
    ensures Staged(s, session, task, status) == s
  {
  }

  /** The task that the session's last queued, done or ended event leaves pending. */
  function Owner(initial: Option<string>, session: string, events: seq<Event>): Option<string> {
    if events == [] then initial
    else
      var before := Owner(initial, session, events[..|events| - 1]);
      match events[|events| - 1]
      case ChatDone(p, _) => if p.session == session then None else before
      case TaskQueued(other, task) => if other == session then Some(task) else before
      case TaskStage(_, _, _) => before
      case TaskEnded(other) => if other == session then None else before
  }

  /** Over every run the pending record belongs to its owner: no stage event, of whatever task, and
      no event of another session moves it to a different task. */
  lemma {:induction false} PendingBelongsToOwner(s: State, session: string, events: seq<Event>)
    requires session != ""
    ensures PendingOf(Run(s, events), session).taskId == Owner(PendingOf(s, session).taskId, session, events)
  {
    hide Append, PatchLatestPage;
    if events != [] {
      PendingBelongsToOwner(s, session, events[..|events| - 1]);
    }
  }

  lemma AppendKeeps(ms: seq<Message>, m: Message, id: string)
    requires HasId(ms, id)
    ensures HasId(Append(ms, m), id)
  {
    var i :| 0 <= i < |ms| && ms[i].id == id;
    assert Append(ms, m)[i].id == id;
  }

  lemma PatchKeeps(pages: seq<Page>, m: Message, id: string)
    requires AnyPageHasId(pages, id)
    ensures AnyPageHasId(PatchLatestPage(pages, m), id)
  {
    var k :| 0 <= k < |pages| && HasId(pages[k].messages, id);
    var i :| 0 <= i < |pages[k].messages| && pages[k].messages[i].id == id;
    var next := PatchLatestPage(pages, m);
    assert next[k].messages[i].id == id;
    assert HasId(next[k].messages, id);
  }

  lemma InsertKeepsLanded(s: State, session: string, m: Message, p: DonePayload)
    requires Landed(s, p)
    ensures Landed(Insert(s, session, m), p)
  {
    hide HasId, AnyPageHasId, Append, PatchLatestPage;
    if CarriesMessage(p) && session == p.session {
      if session in s.messages {
        AppendKeeps(s.messages[session], m, p.messageId.value);
      }
      if session in s.pages {
        if s.pages[session] == [] {
          PatchNoPages(m);
        } else {
          PatchKeeps(s.pages[session], m, p.messageId.value);
        }
      }
    }
  }

  /** A message that has landed stays, whatever events follow. */
  lemma {:induction false} LandedPersists(s: State, p: DonePayload, events: seq<Event>)
    requires Landed(s, p)
    ensures Landed(Run(s, events), p)
  {
    hide Insert;
    if events != [] {
      var t, e := Run(s, events[..|events| - 1]), events[|events| - 1];
      LandedPersists(s, p, events[..|events| - 1]);
      if e.ChatDone? && CarriesMessage(e.payload) {
        InsertKeepsLanded(t, e.payload.session, Assistant(e.payload, e.now), p);
      }
    }
  }

  /** From an empty record on, the record is empty exactly while it has no owner. */
  lemma {:induction false} EmptyIffNoOwner(s: State, session: string, events: seq<Event>)
    requires session != "" && session in s.pending && s.pending[session] == NOTHING_PENDING
    ensures session in Run(s, events).pending
    ensures Run(s, events).pending[session] == NOTHING_PENDING <==> Owner(None, session, events) == None
    ensures Run(s, events).pending[session].taskId == Owner(None, session, events)
  {
    hide Append, PatchLatestPage;
    if events != [] {
      EmptyIffNoOwner(s, session, events[..|events| - 1]);
    }
  }

  /** A replay of chat:done after any events never touches a message, and changes the caches if and only if the
      session's last queued, done or ended event since was a queued one, whose record it drops. */
  lemma ReplayIff(s: State, p: DonePayload, now: int, events: seq<Event>, later: int)
    requires p.session != ""
    ensures var t := Run(Done(s, p, now), events);
            && Done(t, p, later).messages == t.messages && Done(t, p, later).pages == t.pages
            && (Done(t, p, later) != t <==> Owner(None, p.session, events).Some?)
  {
    hide Run, Owner, Landed;
    var t := Run(Done(s, p, now), events);
    DoneLands(s, p, now);
    DoneHasPending(s, p, now);
    LandedPersists(Done(s, p, now), p, events);
    EmptyIffNoOwner(Done(s, p, now), p.session, events);
    hide Done;
    LandedReplayIff(t, p, later);
    MessagesStay(t, p, later);
  }

  lemma MessagesStay(s: State, p: DonePayload, now: int)
    requires Landed(s, p)
    ensures Done(s, p, now).messages == s.messages && Done(s, p, now).pages == s.pages
  {
    hide HasId, AnyPageHasId;
    if CarriesMessage(p) {
      LandedStays(s, p, now);
    }
  }

  /** chat:done does not look at the task it clears: a late replay for a finished task drops the
      record of the task queued since. */
  lemma LateReplayDropsNextTask(s: State, p: DonePayload, task: string, now: int, later: int)
    requires p.session != ""
    ensures PendingOf(Run(s, [ChatDone(p, now), TaskQueued(p.session, task)]), p.session).taskId == Some(task)
    ensures PendingOf(Run(s, [ChatDone(p, now), TaskQueued(p.session, task), ChatDone(p, later)]), p.session)
        == NOTHING_PENDING
  {
    var e, f, g := ChatDone(p, now), TaskQueued(p.session, task), ChatDone(p, later);
    assert [e, f][..1] == [e] && [e][..0] == [];
    assert [e, f, g][..2] == [e, f];
    PendingBelongsToOwner(s, p.session, [e, f]);
    assert Owner(PendingOf(s, p.session).taskId, p.session, [e, f]) == Some(task);
  }
}
