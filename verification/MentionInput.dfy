/** The composer's state machine (apps/mobile/lib/use-mention-input.ts). */
module MentionInput {
  import opened Text
  import opened MentionSerialize
  import opened MentionRoundTrip

  datatype Selection = Selection(start: nat, end: nat)

  datatype Snapshot = Snapshot(text: string, markers: seq<Marker>, selection: Selection)

  /** The hook's four state variables. */
  datatype State = State(text: string, selection: Selection, markers: seq<Marker>, mentioning: Option<Token>)

  const EMPTY := State("", Selection(0, 0), [], None)

  // ---------------------------------------------------------------------------
  // What each handler does to the state
  // ---------------------------------------------------------------------------

  ghost function TextChanged(s: State, next: string): State {
    s.(text := next, mentioning := TokenAt(next, s.selection.end))
  }

  ghost function SelectionChanged(s: State, selection: Selection): State {
    s.(selection := selection, mentioning := TokenAt(s.text, selection.end))
  }

  /** The text with the selection replaced by `insert`. */
  function Replaced(s: State, insert: string): string {
    Before(s.text, s.selection.start) + insert + After(s.text, s.selection.end)
  }

  function Caret(s: State, insert: string): nat {
    |Before(s.text, s.selection.start)| + |insert|
  }

  function AtSign(s: State): string {
    var before := Before(s.text, s.selection.start);
    if before != "" && !IsSpace(before[|before| - 1]) then " @" else "@"
  }

  ghost function AtPressed(s: State): State {
    var next, caret := Replaced(s, AtSign(s)), Caret(s, AtSign(s));
    State(next, Selection(caret, caret), s.markers, TokenAt(next, caret))
  }

  function MentionSelected(s: State, mention: Marker): State {
    match s.mentioning
    case None => s
    case Some(token) =>
      var (next, caret) := InsertMention(s.text, token.start, |token.query|, mention);
      State(next, Selection(caret, caret), s.markers + [mention], None)
  }

  /** The offset may be anything that does not put the caret in front of the text. */
  function Inserted(s: State, insert: string, fromEnd: int): State
    requires fromEnd <= Caret(s, insert)
  {
    var caret := Caret(s, insert) - fromEnd;
    State(Replaced(s, insert), Selection(caret, caret), s.markers, None)
  }

  function LineStart(s: State): nat {
    LastIndexOf(Before(s.text, s.selection.start), '\n') + 1
  }

  function LinePrefixed(s: State, prefix: string): State {
    var at, caret := LineStart(s), s.selection.end + |prefix|;
    State(Before(s.text, at) + prefix + After(s.text, at), Selection(caret, caret), s.markers, None)
  }

  /** The hook: its state, and the refs through which handlers of one tick see each other's writes. */
  class Composer {
    var text: string
    var selection: Selection
    var markers: seq<Marker>
    var mentioning: Option<Token>
    var textRef: string
    var selectionRef: Selection

    ghost predicate Synced()
      reads this
    {
      textRef == text && selectionRef == selection
    }

    ghost function Now(): State
      reads this
    {
      State(text, selection, markers, mentioning)
    }

    constructor ()
      ensures Synced() && Now() == EMPTY
    {
      text, textRef, markers, mentioning := "", "", [], None;
      selection, selectionRef := Selection(0, 0), Selection(0, 0);
    }

    method RecomputeMentioning(nextText: string, cursor: int)
      modifies this`mentioning
      ensures mentioning == TokenAt(nextText, cursor)
    {
      mentioning := TokenAtCursor(nextText, cursor);
    }

    method OnChangeText(next: string)
      requires Synced()
      modifies this
      ensures Synced() && Now() == TextChanged(old(Now()), next)
    {
      textRef := next;
      text := next;
      RecomputeMentioning(next, selectionRef.end);
    }

    method OnSelectionChange(sel: Selection)
      requires Synced()
      modifies this
      ensures Synced() && Now() == SelectionChanged(old(Now()), sel)
    {
      selectionRef := sel;
      selection := sel;
      RecomputeMentioning(textRef, sel.end);
    }

    method OnAtButtonPress()
      requires Synced()
      modifies this
      ensures Synced() && Now() == AtPressed(old(Now()))
    {
      var before := Before(textRef, selectionRef.start);
      var after := After(textRef, selectionRef.end);
      var needsPad := before != "" && !IsSpace(before[|before| - 1]);
      var inserted := (if needsPad then " " else "") + "@";
      assert inserted == AtSign(Now());
      var next := before + inserted + after;
      var cursor := |before| + |inserted|;
      textRef := next;
      selectionRef := Selection(cursor, cursor);
      text := next;
      selection := Selection(cursor, cursor);
      RecomputeMentioning(next, cursor);
    }

    method OnSelectMention(mention: Marker)
      requires Synced()
      modifies this
      ensures Synced() && Now() == MentionSelected(old(Now()), mention)
    {
      if mentioning.None? {
        return;
      }
      var (newText, cursor) := InsertMention(textRef, mentioning.value.start, |mentioning.value.query|, mention);
      textRef := newText;
      selectionRef := Selection(cursor, cursor);
      text := newText;
      selection := Selection(cursor, cursor);
      markers := markers + [mention];
      mentioning := None;
    }

    method InsertAtCursor(insert: string, cursorOffsetFromEnd: int)
      requires Synced() && cursorOffsetFromEnd <= Caret(Now(), insert)
      modifies this
      ensures Synced() && Now() == Inserted(old(Now()), insert, cursorOffsetFromEnd)
    {
      var before := Before(textRef, selectionRef.start);
      var after := After(textRef, selectionRef.end);
      var next := before + insert + after;
      var cursor := |before| + |insert| - cursorOffsetFromEnd;
      textRef := next;
      selectionRef := Selection(cursor, cursor);
      text := next;
      selection := Selection(cursor, cursor);
      mentioning := None;
    }

    method InsertAtLineStart(prefix: string)
      requires Synced()
      modifies this
      ensures Synced() && Now() == LinePrefixed(old(Now()), prefix)
    {
      var before := Before(textRef, selectionRef.start);
      var lastNewline := LastIndexOf(before, '\n');
      var lineStart := if lastNewline == -1 then 0 else lastNewline + 1;
      var next := Before(textRef, lineStart) + prefix + After(textRef, lineStart);
      var cursor := selectionRef.end + |prefix|;
      textRef := next;
      selectionRef := Selection(cursor, cursor);
      text := next;
      selection := Selection(cursor, cursor);
      mentioning := None;
    }

    method Serialize() returns (r: string)
      ensures r == Serialized(text, markers)
    {
      r := SerializeMentions(text, markers);
    }

    function TakeSnapshot(): Snapshot
      reads this
    {
      Snapshot(text, markers, selection)
    }

    /** Rolls an optimistic submit back: everything but the suggestion bar returns. */
    method Restore(snap: Snapshot)
      modifies this
      ensures Synced() && TakeSnapshot() == snap && mentioning == None
    {
      textRef := snap.text;
      selectionRef := snap.selection;
      text := snap.text;
      markers := snap.markers;
      selection := snap.selection;
      mentioning := None;
    }

    method Reset()
      modifies this
      ensures Synced() && Now() == EMPTY
    {
      textRef := "";
      selectionRef := Selection(0, 0);
      text := "";
      markers := [];
      selection := Selection(0, 0);
      mentioning := None;
    }
  }

  // ---------------------------------------------------------------------------
  // Where the characters go and where the caret lands
  // ---------------------------------------------------------------------------

  function Clamped(n: nat, most: nat): nat {
    if n <= most then n else most
  }

  /** The handler of the `@` button changes nothing but the selected range, puts a space in front of the `@`
      exactly behind a character that is no white space, and leaves the caret behind the `@`. */
  lemma AtLands(s: State)
    ensures var from, to := Clamped(s.selection.start, |s.text|), Clamped(s.selection.end, |s.text|);
            var padded := from > 0 && !IsSpace(s.text[from - 1]);
            var t := AtPressed(s);
            && t.text == s.text[..from] + (if padded then " @" else "@") + s.text[to..]
            && t.selection == Selection(from + (if padded then 2 else 1), from + (if padded then 2 else 1))
            && t.markers == s.markers
  {
    hide TokenAt, IsSpace;
  }

  /** The bar is open on `@query` exactly if that stands at a word start right in front of the caret. */
  predicate OpenAt(text: string, caret: nat, token: Token) {
    && token.start < caret <= |text|
    && text[token.start..caret] == "@" + token.query
    && (token.start == 0 || IsSpace(text[token.start - 1]))
    && SpaceFree(token.query) && '@' !in token.query
  }

  lemma OpenAtIff(text: string, caret: nat, token: Token)
    ensures TokenAt(text, caret) == Some(token) <==> OpenAt(text, caret, token)
  {
    TokenAtIff(text, caret, token);
    if token.start < caret <= |text| {
      assert text[token.start..caret] == [text[token.start]] + text[token.start + 1..caret];
      assert ("@" + token.query)[1..] == token.query;
    }
  }

  /** Typing looks at the end of the selection as it was, in the new text. */
  lemma TypingOpensBarIff(s: State, next: string, token: Token)
    ensures var t := TextChanged(s, next);
            && t.text == next && t.selection == s.selection && t.markers == s.markers
            && (t.mentioning == Some(token) <==> OpenAt(next, s.selection.end, token))
  {
    OpenAtIff(next, s.selection.end, token);
  }

  /** Moving the caret looks at the end of the new selection, in the text as it was. */
  lemma MovingOpensBarIff(s: State, selection: Selection, token: Token)
    ensures var t := SelectionChanged(s, selection);
            && t.text == s.text && t.selection == selection && t.markers == s.markers
            && (t.mentioning == Some(token) <==> OpenAt(s.text, selection.end, token))
  {
    OpenAtIff(s.text, selection.end, token);
  }

  /** A chosen mention takes the place of `@` and query and of nothing else, marked and with one space behind it;
      the caret goes behind that space, the marker to the end of the list. Without an open bar nothing happens. */
  lemma MentionLands(s: State, mention: Marker)
    requires Fresh(s)
    ensures match s.mentioning
            case None => MentionSelected(s, mention) == s
            case Some(Token(start, query)) =>
              var caret := start + |mention.name| + 3;
              && s.text[start..start + 1 + |query|] == "@" + query
              && MentionSelected(s, mention) == State(
                   s.text[..start] + ("\U{2063}@" + mention.name + " ") + s.text[start + 1 + |query|..],
                   Selection(caret, caret), s.markers + [mention], None)
  {
    hide IsSpace;
    if s.mentioning.Some? {
      var Token(start, query) := s.mentioning.value;
      assert s.text[start..start + 1 + |query|] == [s.text[start]] + s.text[start + 1..start + 1 + |query|];
      assert Run(mention.name) + " " == "\U{2063}@" + mention.name + " ";
    }
  }

  /** A toolbar insertion replaces the selected range and nothing else; the caret is counted back from its end. */
  lemma InsertLands(s: State, insert: string, fromEnd: int)
    requires fromEnd <= Clamped(s.selection.start, |s.text|) + |insert|
    ensures var from, to := Clamped(s.selection.start, |s.text|), Clamped(s.selection.end, |s.text|);
            var caret := from + |insert| - fromEnd;
            var next := s.text[..from] + insert + s.text[to..];
            Inserted(s, insert, fromEnd) == State(next, Selection(caret, caret), s.markers, None)
  {
  }

  /** A line prefix goes in front of the first character of the line that the selection starts in, and
      nowhere else: behind the last line break before it, or at the front of the text. */
  lemma PrefixLands(s: State, prefix: string)
    ensures exists at: nat ::
              && at <= Clamped(s.selection.start, |s.text|)
              && (at == 0 || s.text[at - 1] == '\n')
              && '\n' !in s.text[at..Clamped(s.selection.start, |s.text|)]
              && LinePrefixed(s, prefix) == State(
                   s.text[..at] + prefix + s.text[at..],
                   Selection(s.selection.end + |prefix|, s.selection.end + |prefix|), s.markers, None)
  {
    var at := LineStart(s);
    var before := Before(s.text, s.selection.start);
    assert before == s.text[..Clamped(s.selection.start, |s.text|)];
    assert at > 0 ==> s.text[at - 1] == before[at - 1] == '\n';
    assert '\n' !in s.text[at..Clamped(s.selection.start, |s.text|)] by {
      assert s.text[at..Clamped(s.selection.start, |s.text|)] == before[at..];
    }
  }

  // ---------------------------------------------------------------------------
  // The suggestion bar
  // ---------------------------------------------------------------------------

  /** Pressing `@` opens the bar in every state, with an empty query at the caret. */
  lemma AtButtonOpensBar(s: State)
    ensures var t := AtPressed(s);
      t.selection.end > 0 && t.mentioning == Some(Token(t.selection.end - 1, ""))
  {
    var t := AtPressed(s);
    var caret := t.selection.end;
    assert IsToken(t.text, caret, caret - 1);
    TokenAtIs(t.text, caret, Token(caret - 1, ""));
  }

  /** Selecting a mention closes the bar, and the selection event that echoes it keeps it closed. */
  lemma SelectionClosesBar(s: State, mention: Marker)
    requires s.mentioning.Some?
    ensures var t := MentionSelected(s, mention);
      t.mentioning == None && SelectionChanged(t, t.selection) == t
  {
    var t := MentionSelected(s, mention);
    var caret := t.selection.end;
    assert 0 < caret <= |t.text| && t.text[caret - 1] == ' ';
    forall start
      ensures !IsToken(t.text, caret, start)
    {
      if start == caret - 1 {
        assert t.text[start] != '@';
      }
    }
  }

  // ---------------------------------------------------------------------------
  // Edits that keep the runs
  // ---------------------------------------------------------------------------

  ghost function RunWords(text: string): seq<string> {
    Words(Lex(text))
  }

  lemma WordsSplit(a: string, b: string)
    requires Closed(a) || b == "" || IsSpace(b[0])
    ensures RunWords(a + b) == RunWords(a) + RunWords(b)
  {
    hide Lex, Words, Closed, IsSpace;
    LexAppend(a, b);
    WordsAppend(Lex(a), Lex(b));
  }

  lemma PlainHasNoWords(s: string)
    requires SENTINEL !in s
    ensures RunWords(s) == [] && Closed(s)
  {
    LexPlain(s);
    CharsHaveNoWords(s);
  }

  /** Replacing plain text by plain text outside the runs keeps every run. */
  lemma PlainEdit(a: string, removed: string, typed: string, b: string)
    requires Closed(a) && SENTINEL !in removed && SENTINEL !in typed
    ensures RunWords(a + typed + b) == RunWords(a + removed + b) == RunWords(a) + RunWords(b)
  {
    hide RunWords, Closed;
    PlainInside(a, removed, b);
    PlainInside(a, typed, b);
  }

  lemma PlainInside(a: string, plain: string, b: string)
    requires Closed(a) && SENTINEL !in plain
    ensures RunWords(a + plain + b) == RunWords(a) + RunWords(b)
  {
    hide RunWords, Closed;
    PlainHasNoWords(plain);
    WordsSplit(plain, b);
    WordsSplit(a, plain + b);
    assert a + plain + b == a + (plain + b);
  }

  /** A text that is empty or ends in white space leaves nothing open. */
  lemma {:induction false} ClosedAtSpace(text: string)
    requires text == "" || IsSpace(text[|text| - 1])
    ensures Closed(text)
    decreases |text|
  {
    hide Closed, WordLength;
    if text == "" {
      PlainHasNoWords(text);
    } else if RunAt(text) {
      var n := WordLength(text[2..]);
      LexAtRun(text, n);
      assert 2 + n < |text|;
      ClosedAtSpace(text[2 + n..]);
    } else {
      LexAtPlain(text);
      ClosedAtSpace(text[1..]);
    }
  }

  /** Prefixing the caret's line never splits a mention run, wherever the caret stands. */
  lemma LinePrefixKeepsWords(s: State, prefix: string)
    requires SENTINEL !in prefix
    ensures RunWords(LinePrefixed(s, prefix).text) == RunWords(s.text)
  {
    hide RunWords, Closed;
    var at := LineStart(s);
    var a, b := Before(s.text, at), After(s.text, at);
    assert a == "" || a[|a| - 1] == '\n';
    ClosedAtSpace(a);
    assert a + b == s.text && a + "" + b == s.text;
    PlainEdit(a, "", prefix, b);
  }

  // ---------------------------------------------------------------------------
  // Inserting a mention
  // ---------------------------------------------------------------------------

  /** The open bar always describes a token that is really in the text. */
  ghost predicate Fresh(s: State) {
    s.mentioning.Some? ==>
      var Token(start, query) := s.mentioning.value;
      var cursor := start + 1 + |query|;
      IsToken(s.text, cursor, start) && query == s.text[start + 1..cursor]
  }

  lemma TokenIsFresh(s: State, cursor: int)
    requires s.mentioning == TokenAt(s.text, cursor)
    ensures Fresh(s)
  {
    if s.mentioning.Some? {
      TokenAtIs(s.text, cursor, s.mentioning.value);
    }
  }

  /** The mention's run goes between the runs before the token and the runs after it. */
  lemma MentionSplitsWords(s: State, mention: Marker)
    requires Fresh(s) && s.mentioning.Some? && SpaceFree(mention.name)
    ensures var Token(start, query) := s.mentioning.value;
      && RunWords(s.text) == RunWords(s.text[..start]) + RunWords(s.text[start..])
      && RunWords(MentionSelected(s, mention).text)
         == RunWords(s.text[..start]) + [mention.name] + RunWords(s.text[start + 1 + |query|..])
  {
    hide RunWords, Lex, Closed, Run;
    var Token(start, query) := s.mentioning.value;
    var a, b := s.text[..start], s.text[start + 1 + |query|..];
    ClosedAtSpace(a);
    assert s.text == a + s.text[start..];
    WordsSplit(a, s.text[start..]);
    var run := Run(mention.name);
    assert MentionSelected(s, mention).text == a + (run + (" " + b));
    WordsSplit(a, run + (" " + b));
    WordsSplit(run, " " + b);
    OneRun(mention.name);
    PlainHasNoWords(" ");
    WordsSplit(" ", b);
  }

  lemma OneRun(name: string)
    requires SpaceFree(name)
    ensures RunWords(Run(name)) == [name]
  {
    LexRun(name);
    FirstRun(name, [], []);
    assert [Mentioned(name)] + [] == [Mentioned(name)];
  }

  /** Cutting plain text off the front of a suffix keeps its runs. */
  lemma WordsAfterToken(text: string, start: nat, query: string)
    requires start + 1 + |query| <= |text| && text[start] == '@'
    requires query == text[start + 1..start + 1 + |query|] && SENTINEL !in query
    ensures RunWords(text[start..]) == RunWords(text[start + 1 + |query|..])
  {
    hide RunWords, Closed;
    var b := text[start + 1 + |query|..];
    assert text[start..] == ("@" + query) + b;
    PlainHasNoWords("@" + query);
    WordsSplit("@" + query, b);
  }

  predicate AllEqual(words: seq<string>, word: string) {
    forall i :: 0 <= i < |words| ==> words[i] == word
  }

  lemma {:induction false} RotateIff(words: seq<string>, word: string)
    ensures [word] + words == words + [word] <==> AllEqual(words, word)
  {
    if words != [] {
      RotateIff(words[1..], word);
      assert words == [words[0]] + words[1..];
      assert AllEqual(words, word) <==> words[0] == word && AllEqual(words[1..], word);
      assert words + [word] == [words[0]] + (words[1..] + [word]);
      assert ([word] + words)[0] == word && ([word] + words)[1..] == words;
      assert (words + [word])[0] == words[0] && (words + [word])[1..] == words[1..] + [word];
    }
  }

  /** The composer links everything: the runs of the text are the markers, in order. */
  ghost predicate Linkable(s: State) {
    && Fresh(s)
    && RunWords(s.text) == Names(s.markers)
    && forall m :: m in s.markers ==> SpaceFree(m.name)
  }

  /** Markers are appended while runs may be inserted anywhere. The text stays linkable after a
      selection if and only if every run to the right of the token shows the same name. */
  lemma SelectionLinksIff(s: State, mention: Marker)
    requires Linkable(s) && s.mentioning.Some? && SpaceFree(mention.name)
    requires SENTINEL !in s.mentioning.value.query
    ensures Linkable(MentionSelected(s, mention)) <==>
            AllEqual(RunWords(s.text[s.mentioning.value.start..]), mention.name)
  {
    var start := s.mentioning.value.start;
    var left, right := RunWords(s.text[..start]), RunWords(s.text[start..]);
    SelectionWords(s, mention);
    LinkableOnceMore(s, MentionSelected(s, mention), mention);
    InsertOrAppend(left, right, mention.name);
  }

  /** The runs before and after a choice. */
  lemma SelectionWords(s: State, mention: Marker)
    requires Fresh(s) && s.mentioning.Some? && SpaceFree(mention.name)
    requires SENTINEL !in s.mentioning.value.query
    ensures var start := s.mentioning.value.start;
            var left, right := RunWords(s.text[..start]), RunWords(s.text[start..]);
            && RunWords(s.text) == left + right
            && RunWords(MentionSelected(s, mention).text) == left + [mention.name] + right
  {
    hide RunWords, MentionSelected;
    var Token(start, query) := s.mentioning.value;
    MentionSplitsWords(s, mention);
    WordsAfterToken(s.text, start, query);
  }

  lemma InsertOrAppend(left: seq<string>, right: seq<string>, word: string)
    ensures left + [word] + right == (left + right) + [word] <==> AllEqual(right, word)
  {
    hide AllEqual;
    assert left + [word] + right == left + ([word] + right);
    assert (left + right) + [word] == left + (right + [word]);
    RotateIff(right, word);
    CancelLeft(left, [word] + right, right + [word]);
  }

  lemma LinkableOnceMore(s: State, t: State, mention: Marker)
    requires Linkable(s) && SpaceFree(mention.name)
    requires t.mentioning.None? && t.markers == s.markers + [mention]
    ensures Linkable(t) <==> RunWords(t.text) == RunWords(s.text) + [mention.name]
  {
    hide RunWords, SpaceFree;
    NamesAppend(s.markers, mention);
  }

  lemma NamesAppend(markers: seq<Marker>, mention: Marker)
    ensures Names(markers + [mention]) == Names(markers) + [mention.name]
  {
  }

  lemma CancelLeft<T>(a: seq<T>, b: seq<T>, c: seq<T>)
    ensures a + b == a + c <==> b == c
  {
    if a + b == a + c {
      assert b == (a + b)[|a|..] && c == (a + c)[|a|..];
    }
  }

  /** Two people of one name: choosing `a`, moving to the front and choosing `b` there puts b's
      run first, yet publishes a's link in its place. */
  lemma OutOfOrderSwapsLinks(a: Marker, b: Marker)
    requires a.name == b.name && SpaceFree(a.name)
    ensures var chosen := MentionSelected(AtPressed(EMPTY), a);
      var s := MentionSelected(AtPressed(SelectionChanged(chosen, Selection(0, 0))), b);
      && s.text == Run(b.name) + " " + chosen.text
      && Serialized(s.text, s.markers) == Link(a) + " " + Link(b) + " "
  {
    hide Link, Lex, Words, Linked, Weave, AtPressed, MentionSelected;
    AtTheFront(EMPTY, a);
    var chosen := MentionSelected(AtPressed(EMPTY), a);
    var moved := SelectionChanged(chosen, Selection(0, 0));
    AtTheFront(moved, b);
    WovenPair(a, b);
    assert chosen.text == Run(a.name) + " ";
    assert Run(b.name) + " " + chosen.text == Run(a.name) + " " + Run(b.name) + " ";
    assert MentionSelected(AtPressed(moved), b).markers == [a, b];
    ReadsBack(["", " ", " "], [a, b]);
  }

  /** Pressing `@` and choosing at the front of any text. */
  lemma AtTheFront(s: State, mention: Marker)
    requires s.selection == Selection(0, 0)
    ensures var t := MentionSelected(AtPressed(s), mention);
      t.text == Run(mention.name) + " " + s.text && t.markers == s.markers + [mention]
  {
    hide Run, IsSpace, TokenAt;
    AtButtonOpensBar(s);
    var pressed := AtPressed(s);
    assert pressed.text == "@" + s.text && pressed.markers == s.markers;
    assert pressed.mentioning == Some(Token(0, ""));
    hide AtPressed;
    var insert := Run(mention.name) + " ";
    assert Before(pressed.text, 0) == "" && After(pressed.text, 1) == s.text;
    assert InsertMention(pressed.text, 0, 0, mention).0 == "" + insert + s.text == insert + s.text;
  }

  lemma WovenPair(a: Marker, b: Marker)
    ensures Weave(["", " ", " "], Runs([a, b])) == Run(a.name) + " " + Run(b.name) + " "
    ensures Weave(["", " ", " "], Links([a, b])) == Link(a) + " " + Link(b) + " "
  {
    hide Link, Run;
    assert Runs([b]) == [Run(b.name)] && Links([b]) == [Link(b)];
    assert Runs([a, b]) == [Run(a.name), Run(b.name)];
    assert Links([a, b]) == [Link(a), Link(b)];
    assert Weave([" "], []) == " ";
    assert Weave([" ", " "], [Run(b.name)]) == " " + Run(b.name) + " ";
    assert Weave([" ", " "], [Link(b)]) == " " + Link(b) + " ";
  }

  // ---------------------------------------------------------------------------
  // Runs of the composer
  // ---------------------------------------------------------------------------

  datatype Event =
    | Edit(at: nat, removed: nat, typed: string)
    | MoveCaret(selection: Selection)
    | PressAt
    | Choose(mention: Marker)
    | Toolbar(insert: string, fromEnd: int)
    | PrefixLine(prefix: string)

  /** Edits of plain text outside the runs, mentions chosen to the right of all runs, and any
      caret movement, line prefix or toolbar insertion outside the runs. */
  ghost predicate Allowed(s: State, e: Event) {
    match e
    case Edit(at, removed, typed) =>
      && at + removed <= |s.text|
      && Closed(s.text[..at])
      && SENTINEL !in s.text[at..at + removed] + typed
    case MoveCaret(_) => true
    case PressAt => PlainSelection(s)
    case Choose(mention) =>
      s.mentioning.Some? ==>
        && SpaceFree(mention.name)
        && s.mentioning.value.start < |s.text|
        && RunWords(s.text[s.mentioning.value.start..]) == []
    case Toolbar(insert, fromEnd) => fromEnd <= Caret(s, insert) && SENTINEL !in insert && PlainSelection(s)
    case PrefixLine(prefix) => SENTINEL !in prefix
  }

  predicate PlainSelection(s: State) {
    && s.selection.start <= s.selection.end <= |s.text|
    && Closed(s.text[..s.selection.start])
    && SENTINEL !in s.text[s.selection.start..s.selection.end]
  }

  ghost function Step(s: State, e: Event): State
    requires Allowed(s, e)
  {
    match e
    case Edit(at, removed, typed) => TextChanged(s, s.text[..at] + typed + s.text[at + removed..])
    case MoveCaret(selection) => SelectionChanged(s, selection)
    case PressAt => AtPressed(s)
    case Choose(mention) => MentionSelected(s, mention)
    case Toolbar(insert, fromEnd) => Inserted(s, insert, fromEnd)
    case PrefixLine(prefix) => LinePrefixed(s, prefix)
  }

  ghost predicate AllAllowed(s: State, events: seq<Event>)
    decreases |events|
  {
    events != [] ==> Allowed(s, events[0]) && AllAllowed(Step(s, events[0]), events[1..])
  }

  ghost function AfterAll(s: State, events: seq<Event>): State
    requires AllAllowed(s, events)
    decreases |events|
  {
    if events == [] then s else AfterAll(Step(s, events[0]), events[1..])
  }

  lemma SelectionReplaced(s: State, insert: string)
    requires PlainSelection(s) && SENTINEL !in insert
    ensures RunWords(Replaced(s, insert)) == RunWords(s.text)
  {
    hide RunWords, Closed;
    var a, removed, b := s.text[..s.selection.start], s.text[s.selection.start..s.selection.end],
        s.text[s.selection.end..];
    assert s.text == a + removed + b;
    PlainEdit(a, removed, insert, b);
  }

  lemma StepStaysLinkable(s: State, e: Event)
    requires Linkable(s) && Allowed(s, e)
    ensures Linkable(Step(s, e))
  {
    hide RunWords, Lex, Closed, IsSpace;
    match e
    case Edit(at, removed, typed) =>
      TokenIsFresh(Step(s, e), s.selection.end);
      var gone := s.text[at..at + removed];
      assert s.text == s.text[..at] + gone + s.text[at + removed..];
      PlainEdit(s.text[..at], gone, typed, s.text[at + removed..]);
    case MoveCaret(selection) =>
      TokenIsFresh(Step(s, e), selection.end);
    case PressAt =>
      TokenIsFresh(Step(s, e), Step(s, e).selection.end);
      SelectionReplaced(s, AtSign(s));
    case Choose(mention) =>
      if s.mentioning.Some? {
        var Token(start, query) := s.mentioning.value;
        MentionSplitsWords(s, mention);
        NoWordsInSuffix(s.text[start..], 1 + |query|);
        assert s.text[start..][1 + |query|..] == s.text[start + 1 + |query|..];
      }
    case Toolbar(insert, fromEnd) =>
      SelectionReplaced(s, insert);
    case PrefixLine(prefix) =>
      LinePrefixKeepsWords(s, prefix);
  }

  /** A text has no run exactly when it holds no sentinel followed by `@`. */
  lemma {:induction false} NoWordsIff(text: string)
    ensures RunWords(text) == [] <==> forall k :: 0 <= k < |text| - 1 && text[k] == SENTINEL ==> text[k + 1] != '@'
    decreases |text|
  {
    hide Lex, WordLength;
    if text == "" {
      LexNothing();
    } else if RunAt(text) {
      LexAtRun(text, WordLength(text[2..]));
      assert text[0] == SENTINEL && text[0 + 1] == '@';
    } else {
      LexAtPlain(text);
      NoWordsIff(text[1..]);
      assert text[0] != SENTINEL ==> Lex(text)[1..] == Lex(text[1..]);
      assert text[0] == SENTINEL ==> Lex(text) == Lex(text[1..]);
      forall k | 0 <= k < |text| - 1 && text[k] == SENTINEL
        ensures k > 0 ==> text[k] == text[1..][k - 1] && text[k + 1] == text[1..][k - 1 + 1]
        ensures k == 0 ==> text[k + 1] != '@'
      {
      }
    }
  }

  lemma NoWordsInSuffix(text: string, from: nat)
    requires RunWords(text) == [] && from <= |text|
    ensures RunWords(text[from..]) == []
  {
    hide RunWords;
    NoWordsIff(text);
    NoWordsIff(text[from..]);
  }

  lemma {:induction false} RunsStayLinkable(s: State, events: seq<Event>)
    requires Linkable(s) && AllAllowed(s, events)
    ensures Linkable(AfterAll(s, events))
    decreases |events|
  {
    hide Linkable, Allowed, Step;
    if events != [] {
      StepStaysLinkable(s, events[0]);
      RunsStayLinkable(Step(s, events[0]), events[1..]);
    }
  }

  /** Whatever the user does within these bounds, sending links every chosen mention: the runs
      of the text are the markers in the order of choosing, and each is replaced by its link. */
  lemma EveryRunSerializes(events: seq<Event>)
    requires AllAllowed(EMPTY, events)
    ensures var s := AfterAll(EMPTY, events);
      && RunWords(s.text) == Names(s.markers)
      && exists lits: seq<string> ::
           && |lits| == |s.markers| + 1
           && Serialized(s.text, s.markers) == Weave(lits, Links(s.markers))
           && Strip(s.text) == Weave(lits, Shown(Names(s.markers)))
  {
    hide Step, Allowed;
    PlainHasNoWords("");
    assert Linkable(EMPTY);
    RunsStayLinkable(EMPTY, events);
    var s := AfterAll(EMPTY, events);
    LinkedIsWoven(Lex(s.text), s.markers);
    StripIsWoven(s.text);
    var lits := Literals(Lex(s.text));
    assert Serialized(s.text, s.markers) == Weave(lits, Links(s.markers));
  }
}
