/** What the serializer promises, stated on texts woven from literals and insertions. */
module MentionRoundTrip {
  import opened Text
  import opened MentionSerialize

  function Links(markers: seq<Marker>): (r: seq<string>)
    ensures |r| == |markers|
  {
    if markers == [] then [] else [Link(markers[0])] + Links(markers[1..])
  }

  function Runs(markers: seq<Marker>): (r: seq<string>)
    ensures |r| == |markers|
  {
    if markers == [] then [] else [Run(markers[0].name)] + Runs(markers[1..])
  }

  /** What the user sees of a run: `@name`, the sentinels being invisible. */
  function Shown(words: seq<string>): (r: seq<string>)
    ensures |r| == |words|
  {
    if words == [] then [] else ["@" + Strip(words[0])] + Shown(words[1..])
  }

  // ---------------------------------------------------------------------------
  // All or nothing
  // ---------------------------------------------------------------------------

  /** The literal text around the runs. */
  function Literals(pieces: seq<Piece>): (r: seq<string>)
    ensures |r| == |Words(pieces)| + 1
  {
    if pieces == [] then [""]
    else
      var rest := Literals(pieces[1..]);
      match pieces[0]
      case Char(c) => [[c] + rest[0]] + rest[1..]
      case Mentioned(_) => [""] + rest
  }

  lemma {:induction false} LinkedIsWoven(pieces: seq<Piece>, markers: seq<Marker>)
    requires Words(pieces) == Names(markers)
    ensures |Literals(pieces)| == |markers| + 1
    ensures Linked(pieces, markers) == Weave(Literals(pieces), Links(markers))
  {
    hide Link;
    if pieces != [] {
      if pieces[0].Mentioned? {
        assert |Names(markers)| > 0;
        assert Words(pieces)[1..] == Words(pieces[1..]);
        assert Names(markers)[1..] == Names(markers[1..]);
        LinkedIsWoven(pieces[1..], markers[1..]);
        assert Literals(pieces)[1..] == Literals(pieces[1..]);
        assert Links(markers)[1..] == Links(markers[1..]);
      } else {
        assert Words(pieces) == Words(pieces[1..]);
        LinkedIsWoven(pieces[1..], markers);
        WeaveLonger([pieces[0].c], Literals(pieces[1..]), Links(markers));
      }
    }
  }

  lemma {:induction false} StripAppend(a: string, b: string)
    ensures Strip(a + b) == Strip(a) + Strip(b)
  {
    if a == "" {
      assert a + b == b;
    } else {
      assert (a + b)[1..] == a[1..] + b;
      StripAppend(a[1..], b);
    }
  }

  lemma {:induction false} StripIsWoven(text: string)
    ensures Strip(text) == Weave(Literals(Lex(text)), Shown(Words(Lex(text))))
    decreases |text|
  {
    hide Lex, WordLength;
    if text == "" {
      LexNothing();
    } else if RunAt(text) {
      var n := WordLength(text[2..]);
      var word, rest := text[2..2 + n], text[2 + n..];
      LexAtRun(text, n);
      StripIsWoven(rest);
      StripRun(text, n);
    } else {
      LexAtPlain(text);
      StripIsWoven(text[1..]);
      if text[0] == SENTINEL {
        assert Lex(text) == Lex(text[1..]);
      } else {
        WovenChar(text[0], Lex(text[1..]));
      }
    }
  }

  lemma StripRun(text: string, n: nat)
    requires RunAt(text) && n <= |text| - 2
    ensures Strip(text) == "@" + Strip(text[2..2 + n]) + Strip(text[2 + n..])
  {
    hide Strip;
    StripMark(text);
    hide RunAt;
    SplitAfterMark(text, n);
    StripSplit(text[2..], n);
  }

  lemma SplitAfterMark(text: string, n: nat)
    requires 2 + n <= |text|
    ensures text[2..][..n] == text[2..2 + n] && text[2..][n..] == text[2 + n..]
  {
  }

  lemma StripSplit(text: string, n: nat)
    requires n <= |text|
    ensures Strip(text) == Strip(text[..n]) + Strip(text[n..])
  {
    hide Strip;
    assert text == text[..n] + text[n..];
    StripAppend(text[..n], text[n..]);
  }

  lemma StripMark(text: string)
    requires RunAt(text)
    ensures Strip(text) == "@" + Strip(text[2..])
  {
    assert text[1..][1..] == text[2..];
  }

  lemma WovenChar(c: char, rest: seq<Piece>)
    ensures var p := [Char(c)] + rest;
      Weave(Literals(p), Shown(Words(p))) == [c] + Weave(Literals(rest), Shown(Words(rest)))
  {
    var p := [Char(c)] + rest;
    assert p[1..] == rest;
    assert Words(p) == Words(rest);
    assert Literals(p) == [[c] + Literals(rest)[0]] + Literals(rest)[1..];
    WeaveLonger([c], Literals(rest), Shown(Words(rest)));
  }

  lemma {:induction false} LiteralsAreSentinelFree(text: string)
    ensures forall lit :: lit in Literals(Lex(text)) ==> SENTINEL !in lit
    decreases |text|
  {
    hide Lex, WordLength;
    if text == "" {
      LexNothing();
    } else if RunAt(text) {
      var n := WordLength(text[2..]);
      LexAtRun(text, n);
      LiteralsAreSentinelFree(text[2 + n..]);
      assert Lex(text)[1..] == Lex(text[2 + n..]);
    } else {
      LexAtPlain(text);
      LiteralsAreSentinelFree(text[1..]);
      if text[0] == SENTINEL {
        assert Lex(text) == Lex(text[1..]);
      } else {
        assert Lex(text)[1..] == Lex(text[1..]);
      }
    }
  }

  /** The serializer either replaces every `@name` the user sees by that marker's link, in
      order, and leaves all other visible text alone, or returns exactly the visible text. */
  lemma AllOrNothing(text: string, markers: seq<Marker>)
    ensures var r := Serialized(text, markers);
      || r == Strip(text)
      || exists lits: seq<string> ::
           && |lits| == |markers| + 1
           && (forall lit :: lit in lits ==> SENTINEL !in lit)
           && r == Weave(lits, Links(markers))
           && Strip(text) == Weave(lits, Shown(Names(markers)))
  {
    if Words(Lex(text)) == Names(markers) {
      LinkedIsWoven(Lex(text), markers);
      StripIsWoven(text);
      LiteralsAreSentinelFree(text);
      var lits := Literals(Lex(text));
      assert Serialized(text, markers) == Weave(lits, Links(markers));
    }
  }

  lemma {:induction false} StripHasNoSentinel(text: string)
    ensures SENTINEL !in Strip(text) && |Strip(text)| <= |text|
  {
    if text != "" {
      StripHasNoSentinel(text[1..]);
    }
  }

  lemma {:induction false} WeaveHasNoSentinel(lits: seq<string>, inserts: seq<string>)
    requires |lits| == |inserts| + 1
    requires forall lit :: lit in lits ==> SENTINEL !in lit
    requires forall insert :: insert in inserts ==> SENTINEL !in insert
    ensures SENTINEL !in Weave(lits, inserts)
  {
    assert lits[0] in lits;
    if inserts != [] {
      assert inserts[0] in inserts;
      WeaveHasNoSentinel(lits[1..], inserts[1..]);
    }
  }

  lemma {:induction false} LinksHaveNoSentinel(markers: seq<Marker>)
    requires forall m :: m in markers ==> SENTINEL !in m.name && SENTINEL !in m.id
    ensures forall link :: link in Links(markers) ==> SENTINEL !in link
  {
    if markers != [] {
      assert markers[0] in markers;
      LinksHaveNoSentinel(markers[1..]);
    }
  }

  /** No sentinel ever reaches the server. */
  lemma OutputHasNoSentinel(text: string, markers: seq<Marker>)
    requires forall m :: m in markers ==> SENTINEL !in m.name && SENTINEL !in m.id
    ensures SENTINEL !in Serialized(text, markers)
  {
    StripHasNoSentinel(text);
    if Words(Lex(text)) == Names(markers) {
      LinkedIsWoven(Lex(text), markers);
      LiteralsAreSentinelFree(text);
      LinksHaveNoSentinel(markers);
      WeaveHasNoSentinel(Literals(Lex(text)), Links(markers));
    }
  }

  // ---------------------------------------------------------------------------
  // Round trip, and exactly when it fails
  // ---------------------------------------------------------------------------

  lemma {:induction false} WordsAreSpaceFree(text: string)
    ensures forall word :: word in Words(Lex(text)) ==> SpaceFree(word)
    decreases |text|
  {
    hide Lex, WordLength;
    if text == "" {
      LexNothing();
    } else if RunAt(text) {
      var n := WordLength(text[2..]);
      LexAtRun(text, n);
      assert text[2..2 + n] == text[2..][..n];
      WordsAreSpaceFree(text[2 + n..]);
      assert Lex(text)[1..] == Lex(text[2 + n..]);
    } else {
      LexAtPlain(text);
      WordsAreSpaceFree(text[1..]);
      if text[0] == SENTINEL {
        assert Lex(text) == Lex(text[1..]);
      } else {
        assert Lex(text)[1..] == Lex(text[1..]);
      }
    }
  }

  /** One marker whose name holds white space sends every text to the fallback. */
  lemma SpacedNameNeverLinks(text: string, markers: seq<Marker>)
    requires exists m :: m in markers && !SpaceFree(m.name)
    ensures Serialized(text, markers) == Strip(text)
  {
    hide Lex, Words;
    WordsAreSpaceFree(text);
    var k :| 0 <= k < |markers| && !SpaceFree(markers[k].name);
    var words := Words(Lex(text));
    assert k < |words| ==> words[k] in words;
    assert words != Names(markers);
  }

  /** Literals that keep the runs apart: each literal after a run begins with white space,
      except that the last one may be empty. */
  predicate Delimited(lits: seq<string>) {
    && (forall i :: 0 <= i < |lits| ==> SENTINEL !in lits[i])
    && (forall i :: 0 < i < |lits| ==> if lits[i] == "" then i == |lits| - 1 else IsSpace(lits[i][0]))
  }

  lemma {:induction false} ReadsBack(lits: seq<string>, markers: seq<Marker>)
    requires |lits| == |markers| + 1 && Delimited(lits)
    requires forall m :: m in markers ==> SpaceFree(m.name)
    ensures Words(Lex(Weave(lits, Runs(markers)))) == Names(markers)
    ensures Linked(Lex(Weave(lits, Runs(markers))), markers) == Weave(lits, Links(markers))
  {
    hide Lex, Words, Linked, Link, IsSpace, Names, Closed, Run;
    LexPlain(lits[0]);
    CharsHaveNoWords(lits[0]);
    if markers == [] {
      LinkedChars(lits[0], [], markers);
      LexNothing();
      assert Chars(lits[0]) + [] == Chars(lits[0]);
    } else {
      var rest := Weave(lits[1..], Runs(markers[1..]));
      ReadsBack(lits[1..], markers[1..]);
      assert rest == "" || IsSpace(rest[0]);
      ReadsBackStep(lits[0], markers[0], rest, markers);
      assert Weave(lits, Runs(markers)) == lits[0] + (Run(markers[0].name) + rest);
      assert Weave(lits, Links(markers)) == lits[0] + (Link(markers[0]) + Weave(lits[1..], Links(markers[1..])));
    }
  }

  lemma ReadsBackStep(lit: string, m: Marker, rest: string, markers: seq<Marker>)
    requires SENTINEL !in lit && SpaceFree(m.name) && (rest == "" || IsSpace(rest[0]))
    requires markers != [] && markers[0] == m
    ensures var whole := lit + (Run(m.name) + rest);
      && Words(Lex(whole)) == [m.name] + Words(Lex(rest))
      && Linked(Lex(whole), markers) == lit + (Link(m) + Linked(Lex(rest), markers[1..]))
  {
    hide Lex, Words, Linked, Link, IsSpace, Closed, Run;
    LexPlain(lit);
    CharsHaveNoWords(lit);
    LexAppend(lit, Run(m.name) + rest);
    LexRun(m.name);
    LexAppend(Run(m.name), rest);
    FirstRun(m.name, Lex(rest), markers);
    WordsAppend(Chars(lit), Lex(Run(m.name) + rest));
    LinkedChars(lit, Lex(Run(m.name) + rest), markers);
  }

  lemma {:induction false} WeaveGrows(lits: seq<string>, markers: seq<Marker>)
    requires |lits| == |markers| + 1
    ensures |Weave(lits, Runs(markers))| <= |Weave(lits, Links(markers))|
    ensures markers != [] ==> |Weave(lits, Runs(markers))| < |Weave(lits, Links(markers))|
  {
    if markers != [] {
      WeaveGrows(lits[1..], markers[1..]);
    }
  }

  /** The bar's text is published with every mention linked if and only if no mentioned name
      holds white space: one such name silently turns all the mentions into plain text. */
  lemma RoundTrip(lits: seq<string>, markers: seq<Marker>)
    requires |lits| == |markers| + 1 && Delimited(lits)
    ensures Serialized(Weave(lits, Runs(markers)), markers) == Weave(lits, Links(markers))
       <==> forall m :: m in markers ==> SpaceFree(m.name)
  {
    hide Lex, Words, Linked, Weave;
    if forall m :: m in markers ==> SpaceFree(m.name) {
      ReadsBack(lits, markers);
    } else {
      SpacedNameNeverLinks(Weave(lits, Runs(markers)), markers);
      StripHasNoSentinel(Weave(lits, Runs(markers)));
      WeaveGrows(lits, markers);
    }
  }

  // ---------------------------------------------------------------------------
  // What is published, character by character
  // ---------------------------------------------------------------------------

  /** The markdown that the server and the other clients parse. */
  predicate IsMarkdown(published: string, kind: MentionType, id: string, name: string) {
    match kind
    case Member => published == "[@" + name + "](mention://member/" + id + ")"
    case Agent => published == "[@" + name + "](mention://agent/" + id + ")"
    case Squad => published == "[@" + name + "](mention://squad/" + id + ")"
    case All => published == "[@" + name + "](mention://all/" + id + ")"
    case Issue => published == "[" + name + "](mention://issue/" + id + ")"
  }

  lemma LinkIsMarkdown(m: Marker)
    ensures IsMarkdown(Link(m), m.kind, m.id, m.name)
  {
    TargetOf(m.kind);
    var caption := if m.kind.Issue? then "[" + m.name else "[@" + m.name;
    var target := "](mention://" + Scheme(m.kind) + "/";
    assert "[" + ("@" + m.name) == "[@" + m.name;
    hide Scheme;
    assert Link(m) == caption + target + m.id + ")";
  }

  lemma TargetOf(kind: MentionType)
    ensures "](mention://" + Scheme(kind) + "/" ==
            match kind
            case Member => "](mention://member/"
            case Agent => "](mention://agent/"
            case Squad => "](mention://squad/"
            case All => "](mention://all/"
            case Issue => "](mention://issue/"
  {
  }

  lemma {:induction false} LinksAreMarkdown(markers: seq<Marker>)
    ensures forall k :: 0 <= k < |markers| ==>
              IsMarkdown(Links(markers)[k], markers[k].kind, markers[k].id, markers[k].name)
  {
    hide Link, IsMarkdown;
    if markers != [] {
      LinkIsMarkdown(markers[0]);
      LinksAreMarkdown(markers[1..]);
    }
  }

  /** Texts that were woven from the runs of space-free names are sent with each run as the markdown of its
      kind, id and name, and with every other character as it was. */
  lemma PublishedMarkdown(lits: seq<string>, markers: seq<Marker>)
    requires |lits| == |markers| + 1 && Delimited(lits)
    requires forall m :: m in markers ==> SpaceFree(m.name)
    ensures exists published: seq<string> ::
              && |published| == |markers|
              && (forall k :: 0 <= k < |markers| ==>
                    IsMarkdown(published[k], markers[k].kind, markers[k].id, markers[k].name))
              && Serialized(Weave(lits, Runs(markers)), markers) == Weave(lits, published)
  {
    RoundTrip(lits, markers);
    LinksAreMarkdown(markers);
    hide IsMarkdown;
    assert Serialized(Weave(lits, Runs(markers)), markers) == Weave(lits, Links(markers));
  }

  /** One mention alone: the invisible mark and `@name` become the markdown. */
  lemma OneMentionPublished(kind: MentionType, id: string, name: string)
    requires SpaceFree(name)
    ensures IsMarkdown(Serialized("\U{2063}@" + name, [Marker(kind, id, name)]), kind, id, name)
  {
    var m := Marker(kind, id, name);
    hide Link, IsMarkdown, Lex, Words, Linked;
    ReadsBack(["", ""], [m]);
    LinkIsMarkdown(m);
    WeaveOne(Run(name));
    WeaveOne(Link(m));
    assert Runs([m]) == [Run(name)] && Links([m]) == [Link(m)];
    assert Run(name) == "\U{2063}@" + name;
  }

  lemma WeaveOne(insert: string)
    ensures Weave(["", ""], [insert]) == insert
  {
    assert Weave([""], []) == "";
  }
}
