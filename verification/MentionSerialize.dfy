/** The mention tokenizer and serializer of the mobile composer
    (apps/mobile/lib/mention-serialize.ts). */
module MentionSerialize {
  import opened Text

  datatype MentionType = Member | Agent | Squad | All | Issue

  datatype Marker = Marker(kind: MentionType, id: string, name: string)

  datatype Token = Token(start: nat, query: string)

  // ---------------------------------------------------------------------------
  // The in-progress `@query` run at the cursor
  // ---------------------------------------------------------------------------

  /** What a token is: an `@` at a word boundary with neither `@` nor white space up to the cursor. */
  ghost predicate IsToken(text: string, cursor: int, start: int) {
    && 0 <= start < cursor <= |text|
    && text[start] == '@'
    && (start == 0 || IsSpace(text[start - 1]))
    && forall k :: start < k < cursor ==> text[k] != '@' && !IsSpace(text[k])
  }

  /** The token ending at the cursor, if there is one. */
  ghost function TokenAt(text: string, cursor: int): Option<Token> {
    if exists start :: IsToken(text, cursor, start) then
      var start :| IsToken(text, cursor, start);
      Some(Token(start, text[start + 1..cursor]))
    else
      None
  }

  /** There is at most one token at a cursor: an `@` that stands first or behind white space, with its query up to
      the cursor free of white space and `@`. */
  lemma TokenAtIff(text: string, cursor: int, token: Token)
    ensures TokenAt(text, cursor) == Some(token) <==>
            && token.start < cursor <= |text| && text[token.start] == '@'
            && (token.start == 0 || IsSpace(text[token.start - 1]))
            && token.query == text[token.start + 1..cursor] && SpaceFree(token.query) && '@' !in token.query
  {
    TokenAtIs(text, cursor, token);
    if 0 <= token.start < cursor <= |text| && token.query == text[token.start + 1..cursor] {
      assert forall k :: token.start < k < cursor ==> text[k] == token.query[k - token.start - 1];
      assert forall k :: 0 <= k < |token.query| ==> token.query[k] == text[token.start + 1 + k];
    }
  }

  lemma TokenAtIs(text: string, cursor: int, token: Token)
    ensures TokenAt(text, cursor) == Some(token) <==>
            IsToken(text, cursor, token.start) && token.query == text[token.start + 1..cursor]
  {
    if IsToken(text, cursor, token.start) {
      var found := TokenAt(text, cursor).value.start;
      assert IsToken(text, cursor, found);
      assert found == token.start;
    }
  }

  method TokenAtCursor(text: string, cursor: int) returns (token: Option<Token>)
    ensures token == TokenAt(text, cursor)
  {
    if cursor < 1 || cursor > |text| {
      return None;
    }
    var i := cursor - 1;
    while i >= 0 && text[i] != '@'
      invariant -1 <= i < cursor
      invariant forall k :: i < k < cursor ==> text[k] != '@' && !IsSpace(text[k])
    {
      if IsSpace(text[i]) {
        return None;
      }
      i := i - 1;
    }
    if i < 0 {
      return None;
    }
    if i > 0 && text[i - 1] == SENTINEL {
      assert forall s :: IsToken(text, cursor, s) ==> s == i;
      return None;
    }
    if i > 0 && !IsSpace(text[i - 1]) {
      assert forall s :: IsToken(text, cursor, s) ==> s == i;
      return None;
    }
    TokenAtIs(text, cursor, Token(i, text[i + 1..cursor]));
    return Some(Token(i, text[i + 1..cursor]));
  }

  // ---------------------------------------------------------------------------
  // Inserting a mention
  // ---------------------------------------------------------------------------

  function Run(name: string): string {
    [SENTINEL, '@'] + name
  }

  /** The new text and the new caret. */
  function InsertMention(text: string, start: nat, queryLength: nat, mention: Marker): (string, nat) {
    var before := Before(text, start);
    var after := After(text, start + 1 + queryLength);
    var insert := Run(mention.name) + " ";
    (before + insert + after, |before| + |insert|)
  }

  // ---------------------------------------------------------------------------
  // What a buffer means: plain characters and sentinel-marked runs
  // ---------------------------------------------------------------------------

  datatype Piece = Char(c: char) | Mentioned(word: string)

  /** Length of the longest white-space-free prefix. */
  function WordLength(s: string): (n: nat)
    ensures n <= |s| && SpaceFree(s[..n])
    ensures n < |s| ==> IsSpace(s[n])
  {
    if s == "" || IsSpace(s[0]) then 0 else 1 + WordLength(s[1..])
  }

  /** Reads a buffer left to right; a sentinel that is not followed by `@` is dropped. */
  function Lex(text: string): seq<Piece> {
    if text == "" then
      []
    else if text[0] != SENTINEL then
      [Char(text[0])] + Lex(text[1..])
    else if |text| > 1 && text[1] == '@' then
      var n := WordLength(text[2..]);
      [Mentioned(text[2..2 + n])] + Lex(text[2 + n..])
    else
      Lex(text[1..])
  }

  function Words(pieces: seq<Piece>): seq<string> {
    if pieces == [] then []
    else (if pieces[0].Mentioned? then [pieces[0].word] else []) + Words(pieces[1..])
  }

  function Names(markers: seq<Marker>): (names: seq<string>)
    ensures |names| == |markers|
    ensures forall i :: 0 <= i < |markers| ==> names[i] == markers[i].name
  {
    seq(|markers|, i requires 0 <= i < |markers| => markers[i].name)
  }

  function Scheme(kind: MentionType): string {
    match kind
    case Member => "member"
    case Agent => "agent"
    case Squad => "squad"
    case All => "all"
    case Issue => "issue"
  }

  /** The markdown link of one mention; issues drop the `@` in the label. */
  function Link(marker: Marker): string {
    "[" + (if marker.kind.Issue? then marker.name else "@" + marker.name) + "](mention://"
    + Scheme(marker.kind) + "/" + marker.id + ")"
  }

  /** The pieces with the k-th run replaced by the k-th marker's link. */
  function Linked(pieces: seq<Piece>, markers: seq<Marker>): string {
    if pieces == [] then ""
    else match pieces[0]
      case Char(c) => [c] + Linked(pieces[1..], markers)
      case Mentioned(_) =>
        if markers == [] then "" else Link(markers[0]) + Linked(pieces[1..], markers[1..])
  }

  /** The text without any sentinel. */
  function Strip(text: string): string {
    if text == "" then ""
    else (if text[0] == SENTINEL then "" else [text[0]]) + Strip(text[1..])
  }

  /** All or nothing: every run is linked, or none is. */
  function Serialized(text: string, markers: seq<Marker>): string {
    if Words(Lex(text)) == Names(markers) then Linked(Lex(text), markers) else Strip(text)
  }

  // ---------------------------------------------------------------------------
  // Lexing a concatenation
  // ---------------------------------------------------------------------------

  function Chars(s: string): seq<Piece> {
    seq(|s|, i requires 0 <= i < |s| => Char(s[i]))
  }

  /** No run and no sentinel is left open at the end of the text, whatever follows it. */
  predicate Closed(text: string) {
    if text == "" then
      true
    else if text[0] != SENTINEL then
      Closed(text[1..])
    else if |text| > 1 && text[1] == '@' then
      var n := WordLength(text[2..]);
      2 + n < |text| && Closed(text[2 + n..])
    else
      |text| > 1 && Closed(text[1..])
  }

  /** WordLength is determined by what its contract says. */
  lemma {:induction false} WordLengthIs(s: string, n: nat)
    requires n <= |s| && SpaceFree(s[..n])
    requires n < |s| ==> IsSpace(s[n])
    ensures WordLength(s) == n
  {
    if n > 0 {
      assert s[..n][0] == s[0];
      assert s[1..][..n - 1] == s[..n][1..];
      WordLengthIs(s[1..], n - 1);
    }
  }

  predicate RunAt(text: string) {
    |text| > 1 && text[0] == SENTINEL && text[1] == '@'
  }

  lemma LexAtRun(text: string, n: nat)
    requires RunAt(text) && n == WordLength(text[2..])
    ensures Lex(text) == [Mentioned(text[2..2 + n])] + Lex(text[2 + n..])
    ensures Closed(text) <==> 2 + n < |text| && Closed(text[2 + n..])
  {
  }

  lemma LexAtPlain(text: string)
    requires text != "" && !RunAt(text)
    ensures Lex(text) == (if text[0] == SENTINEL then [] else [Char(text[0])]) + Lex(text[1..])
    ensures Closed(text) <==> (text[0] == SENTINEL ==> |text| > 1) && Closed(text[1..])
  {
  }

  /** A run whose word ends inside `a`, or before `b`, reads the same in `a + b`. */
  lemma LexStep(a: string, b: string, n: nat)
    requires RunAt(a) && n == WordLength(a[2..])
    requires 2 + n < |a| || b == "" || IsSpace(b[0])
    ensures Lex(a + b) == [Mentioned(a[2..2 + n])] + Lex(a[2 + n..] + b)
    ensures Closed(a + b) <==> 2 + n < |a + b| && Closed(a[2 + n..] + b)
  {
    var t := a + b;
    assert t[2..2 + n] == a[2..2 + n];
    assert t[2..][..n] == a[2..][..n];
    assert t[2 + n..] == a[2 + n..] + b;
    assert 2 + n < |a| ==> t[2..][n] == a[2..][n];
    WordLengthIs(t[2..], n);
    LexAtRun(t, n);
  }

  lemma LexNothing()
    ensures Lex("") == [] && Words([]) == []
    ensures forall markers :: Linked([], markers) == ""
  {
  }

  /** A closed prefix, or a suffix that begins with white space, separates the two readings. */
  lemma {:induction false} LexAppend(a: string, b: string)
    requires Closed(a) || b == "" || IsSpace(b[0])
    ensures Lex(a + b) == Lex(a) + Lex(b)
    decreases |a|
  {
    hide Lex, Closed, WordLength;
    if a == "" {
      assert a + b == b;
      LexNothing();
    } else if RunAt(a) {
      var n := WordLength(a[2..]);
      LexAtRun(a, n);
      LexStep(a, b, n);
      LexAppend(a[2 + n..], b);
    } else {
      var t := a + b;
      assert t[1..] == a[1..] + b;
      LexAtPlain(a);
      LexAtPlain(t);
      LexAppend(a[1..], b);
    }
  }

  lemma {:induction false} ClosedAppend(a: string, b: string)
    requires Closed(a) || (b != "" && IsSpace(b[0]))
    requires Closed(b)
    ensures Closed(a + b)
    decreases |a|
  {
    if a == "" {
      assert a + b == b;
    } else {
      assert (a + b)[1..] == a[1..] + b;
      if RunAt(a) {
        var n := WordLength(a[2..]);
        LexStep(a, b, n);
        LexAtRun(a, n);
        ClosedAppend(a[2 + n..], b);
      } else {
        ClosedAppend(a[1..], b);
        if a[0] == SENTINEL && |a| == 1 {
          assert (a + b)[1] == b[0];
        }
      }
    }
  }

  lemma {:induction false} LexPlain(s: string)
    requires SENTINEL !in s
    ensures Lex(s) == Chars(s) && Closed(s) && Strip(s) == s
  {
    if s != "" {
      LexPlain(s[1..]);
      assert Chars(s) == [Char(s[0])] + Chars(s[1..]);
    }
  }

  lemma LexRun(name: string)
    requires SpaceFree(name)
    ensures Lex(Run(name)) == [Mentioned(name)]
  {
    assert Run(name)[2..] == name;
    assert WordLength(name) == |name|;
    assert Run(name)[2..2 + |name|] == name;
    assert Run(name)[2 + |name|..] == "";
  }

  lemma {:induction false} WordsAppend(p: seq<Piece>, q: seq<Piece>)
    ensures Words(p + q) == Words(p) + Words(q)
  {
    if p == [] {
      assert p + q == q;
    } else {
      assert (p + q)[1..] == p[1..] + q;
      WordsAppend(p[1..], q);
    }
  }

  lemma {:induction false} CharsHaveNoWords(s: string)
    ensures Words(Chars(s)) == []
  {
    if s != "" {
      assert Chars(s)[1..] == Chars(s[1..]);
      CharsHaveNoWords(s[1..]);
    }
  }

  lemma {:induction false} LinkedChars(s: string, rest: seq<Piece>, markers: seq<Marker>)
    ensures Linked(Chars(s) + rest, markers) == s + Linked(rest, markers)
  {
    if s == "" {
      assert Chars(s) + rest == rest;
    } else {
      assert (Chars(s) + rest)[1..] == Chars(s[1..]) + rest;
      LinkedChars(s[1..], rest, markers);
    }
  }

  // ---------------------------------------------------------------------------
  // The serializer
  // ---------------------------------------------------------------------------

  method ScanWord(text: string, from: nat) returns (wordEnd: nat)
    requires from <= |text|
    ensures from <= wordEnd <= |text| && wordEnd - from == WordLength(text[from..])
  {
    wordEnd := from;
    while wordEnd < |text| && !IsSpace(text[wordEnd])
      invariant from <= wordEnd <= |text|
      invariant WordLength(text[from..]) == wordEnd - from + WordLength(text[wordEnd..])
    {
      assert text[wordEnd..][1..] == text[wordEnd + 1..];
      wordEnd := wordEnd + 1;
    }
  }

  /** How far a scan has come: `out` is what the text before the cursor prints as,
      provided the runs read so far are the names of the markers used so far. */
  ghost predicate Progress(text: string, markers: seq<Marker>, cursor: nat, used: nat, out: string) {
    && cursor <= |text|
    && used <= |markers|
    && Words(Lex(text)) == Names(markers[..used]) + Words(Lex(text[cursor..]))
    && Linked(Lex(text), markers) == out + Linked(Lex(text[cursor..]), markers[used..])
  }

  method SerializeMentions(text: string, markers: seq<Marker>) returns (r: string)
    ensures r == Serialized(text, markers)
  {
    hide Progress, Lex, Words, Linked, Strip, Link, Names;
    if SENTINEL !in text {
      SerializedPlain(text, markers);
      return text;
    }
    var out := "";
    var cursor := 0;
    var markerIndex := 0;
    var abort := false;
    StartProgress(text, markers);
    while cursor < |text|
      invariant cursor <= |text| && markerIndex <= |markers|
      invariant Progress(text, markers, cursor, markerIndex, out)
    {
      var sentinelAt := IndexOf(text, SENTINEL, cursor);
      if sentinelAt == -1 {
        ProgressPlain(text, markers, cursor, |text|, markerIndex, out);
        out := out + text[cursor..|text|];
        cursor := |text|;
        break;
      }
      ProgressPlain(text, markers, cursor, sentinelAt, markerIndex, out);
      out := out + text[cursor..sentinelAt];
      if sentinelAt + 1 == |text| || text[sentinelAt + 1] != '@' {
        ProgressStray(text, markers, sentinelAt, markerIndex, out);
        cursor := sentinelAt + 1;
        continue;
      }
      var wordEnd := ScanWord(text, sentinelAt + 2);
      var word := text[sentinelAt + 2..wordEnd];
      if markerIndex == |markers| || markers[markerIndex].name != word {
        MismatchedRun(text, markers, sentinelAt, wordEnd, markerIndex, out);
        abort := true;
        break;
      }
      ProgressRun(text, markers, sentinelAt, wordEnd, markerIndex, out);
      out := out + Link(markers[markerIndex]);
      markerIndex := markerIndex + 1;
      cursor := wordEnd;
    }
    if abort || markerIndex != |markers| {
      if !abort {
        FinishProgress(text, markers, markerIndex, out);
      }
      return Strip(text);
    }
    FinishProgress(text, markers, markerIndex, out);
    return out;
  }

  lemma SerializedPlain(text: string, markers: seq<Marker>)
    requires SENTINEL !in text
    ensures Serialized(text, markers) == text
  {
    LexPlain(text);
    CharsHaveNoWords(text);
    LinkedChars(text, [], markers);
    assert Chars(text) + [] == Chars(text);
  }

  lemma StartProgress(text: string, markers: seq<Marker>)
    ensures Progress(text, markers, 0, 0, "")
  {
    assert text[0..] == text && markers[0..] == markers && Names(markers[..0]) == [];
  }

  lemma ProgressPlain(text: string, markers: seq<Marker>, from: nat, to: nat, used: nat, out: string)
    requires Progress(text, markers, from, used, out)
    requires from <= to <= |text|
    requires forall k :: from <= k < to ==> text[k] != SENTINEL
    ensures Progress(text, markers, to, used, out + text[from..to])
  {
    hide Lex, Words, Linked, Closed;
    var plain := text[from..to];
    LexPlain(plain);
    assert text[from..] == plain + text[to..];
    LexAppend(plain, text[to..]);
    WordsAppend(Chars(plain), Lex(text[to..]));
    CharsHaveNoWords(plain);
    LinkedChars(plain, Lex(text[to..]), markers[used..]);
  }

  lemma ProgressStray(text: string, markers: seq<Marker>, at: nat, used: nat, out: string)
    requires Progress(text, markers, at, used, out)
    requires at < |text| && text[at] == SENTINEL && (at + 1 == |text| || text[at + 1] != '@')
    ensures Progress(text, markers, at + 1, used, out)
  {
    assert text[at..][1..] == text[at + 1..];
    LexAtPlain(text[at..]);
  }

  lemma WordsAtRun(text: string, markers: seq<Marker>, at: nat, wordEnd: nat, used: nat, out: string)
    requires Progress(text, markers, at, used, out)
    requires at + 2 <= wordEnd <= |text| && text[at] == SENTINEL && text[at + 1] == '@'
    requires WordLength(text[at + 2..]) == wordEnd - (at + 2)
    ensures Words(Lex(text)) == Names(markers[..used]) + [text[at + 2..wordEnd]] + Words(Lex(text[wordEnd..]))
  {
    hide Lex, Words, Linked, Names, WordLength;
    LexRunAt(text, at, wordEnd);
    FirstRun(text[at + 2..wordEnd], Lex(text[wordEnd..]), markers[used..]);
  }

  lemma ProgressRun(text: string, markers: seq<Marker>, at: nat, wordEnd: nat, used: nat, out: string)
    requires Progress(text, markers, at, used, out)
    requires at + 2 <= wordEnd <= |text| && text[at] == SENTINEL && text[at + 1] == '@'
    requires WordLength(text[at + 2..]) == wordEnd - (at + 2)
    requires used < |markers| && markers[used].name == text[at + 2..wordEnd]
    ensures Progress(text, markers, wordEnd, used + 1, out + Link(markers[used]))
  {
    hide Link, Lex, Words, Linked, Names, WordLength;
    WordsAtRun(text, markers, at, wordEnd, used, out);
    NamesSnoc(markers, used);
    assert markers[used..][1..] == markers[used + 1..];
    LexRunAt(text, at, wordEnd);
    FirstRun(text[at + 2..wordEnd], Lex(text[wordEnd..]), markers[used..]);
  }

  lemma MismatchedRun(text: string, markers: seq<Marker>, at: nat, wordEnd: nat, used: nat, out: string)
    requires Progress(text, markers, at, used, out)
    requires at + 2 <= wordEnd <= |text| && text[at] == SENTINEL && text[at + 1] == '@'
    requires WordLength(text[at + 2..]) == wordEnd - (at + 2)
    requires used < |markers| ==> markers[used].name != text[at + 2..wordEnd]
    ensures Words(Lex(text)) != Names(markers)
  {
    WordsAtRun(text, markers, at, wordEnd, used, out);
    assert Words(Lex(text))[used] == text[at + 2..wordEnd];
  }

  lemma LexRunAt(text: string, at: nat, wordEnd: nat)
    requires at + 2 <= wordEnd <= |text| && text[at] == SENTINEL && text[at + 1] == '@'
    requires WordLength(text[at + 2..]) == wordEnd - (at + 2)
    ensures Lex(text[at..]) == [Mentioned(text[at + 2..wordEnd])] + Lex(text[wordEnd..])
  {
    hide Lex, WordLength;
    var t, n := text[at..], wordEnd - (at + 2);
    assert t[2..] == text[at + 2..] && t[2..2 + n] == text[at + 2..wordEnd] && t[2 + n..] == text[wordEnd..];
    LexAtRun(t, n);
  }

  lemma NamesSnoc(markers: seq<Marker>, k: nat)
    requires k < |markers|
    ensures Names(markers[..k + 1]) == Names(markers[..k]) + [markers[k].name]
  {
  }

  lemma FirstRun(word: string, rest: seq<Piece>, markers: seq<Marker>)
    ensures Words([Mentioned(word)] + rest) == [word] + Words(rest)
    ensures markers != [] ==> Linked([Mentioned(word)] + rest, markers) == Link(markers[0]) + Linked(rest, markers[1..])
  {
    hide Link;
    assert ([Mentioned(word)] + rest)[1..] == rest;
  }

  lemma FinishProgress(text: string, markers: seq<Marker>, used: nat, out: string)
    requires Progress(text, markers, |text|, used, out)
    ensures Words(Lex(text)) == Names(markers) <==> used == |markers|
    ensures used == |markers| ==> Linked(Lex(text), markers) == out
  {
    assert text[|text|..] == "";
    assert markers[..|markers|] == markers;
    assert |Words(Lex(text))| == used;
  }
}
