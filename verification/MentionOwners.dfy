/** Whose link each run gets: the markers are kept in the order of choosing, the runs stand in text order
    (apps/mobile/lib/mention-serialize.ts, apps/mobile/lib/use-mention-input.ts). */
module MentionOwners {
  import opened Text
  import opened MentionSerialize
  import opened MentionRoundTrip
  import opened MentionInput

  /** Every run of the text is printed as the link of its own marker, the owners being given in text order. */
  ghost predicate Published(text: string, markers: seq<Marker>, owners: seq<Marker>)
    requires |owners| == |RunWords(text)|
  {
    Serialized(text, markers) == Weave(Literals(Lex(text)), Links(owners))
  }

  // ---------------------------------------------------------------------------
  // A published text determines its links
  // ---------------------------------------------------------------------------

  lemma {:induction false} LexDelimits(text: string)
    ensures Delimited(Literals(Lex(text)))
    decreases |text|
  {
    hide Lex, WordLength, IsSpace;
    LiteralsAreSentinelFree(text);
    if text == "" {
      LexNothing();
    } else if RunAt(text) {
      var n := WordLength(text[2..]);
      var rest := text[2 + n..];
      LexAtRun(text, n);
      LexDelimits(rest);
      AfterRun(text[2..], n);
      assert text[2..][n..] == rest;
      assert Literals(Lex(text)) == [""] + Literals(Lex(rest));
    } else {
      LexAtPlain(text);
      LexDelimits(text[1..]);
      if text[0] != SENTINEL {
        var more := Literals(Lex(text[1..]));
        assert Literals(Lex(text)) == [[text[0]] + more[0]] + more[1..];
      } else {
        assert Lex(text) == Lex(text[1..]);
      }
    }
  }

  /** What follows a run is nothing, or begins with the white space that ended the run. */
  lemma AfterRun(s: string, n: nat)
    requires n == WordLength(s)
    ensures s[n..] == "" ==> Literals(Lex(s[n..])) == [""]
    ensures s[n..] != "" ==> Literals(Lex(s[n..]))[0] != "" && IsSpace(Literals(Lex(s[n..]))[0][0])
  {
    var rest := s[n..];
    if rest == "" {
      LexNothing();
    } else {
      assert rest[0] == s[n] && IsSpace(rest[0]) && rest[0] != SENTINEL;
      LexAtPlain(rest);
      assert Lex(rest)[1..] == Lex(rest[1..]);
    }
  }

  ghost predicate AllSpaceFree(xs: seq<string>) {
    forall x :: x in xs ==> SpaceFree(x)
  }

  /** A space-free string reaches past white space in no equal text. */
  lemma NoLonger(x: string, y: string, a: string, b: string)
    requires |x| < |y| && SpaceFree(y) && (a == "" || IsSpace(a[0]))
    ensures x + a != y + b
  {
    hide IsSpace;
    if a != "" {
      assert (x + a)[|x|] == a[0] && (y + b)[|x|] == y[|x|];
    }
  }

  /** Two space-free strings in front of white space, or of the end, are equal when the texts are. */
  lemma CutAtSpace(x: string, y: string, a: string, b: string)
    requires SpaceFree(x) && SpaceFree(y)
    requires (a == "" || IsSpace(a[0])) && (b == "" || IsSpace(b[0]))
    ensures x + a == y + b <==> x == y && a == b
  {
    hide SpaceFree, IsSpace;
    if |x| < |y| {
      NoLonger(x, y, a, b);
    } else if |y| < |x| {
      NoLonger(y, x, b, a);
    } else {
      assert (x + a)[..|x|] == x && (y + b)[..|y|] == y;
      assert (x + a)[|x|..] == a && (y + b)[|y|..] == b;
    }
  }

  lemma WeaveStart(lits: seq<string>, xs: seq<string>)
    requires |lits| == |xs| + 1
    requires if lits[0] == "" then |lits| == 1 else IsSpace(lits[0][0])
    ensures Weave(lits, xs) == "" || IsSpace(Weave(lits, xs)[0])
  {
    hide IsSpace;
  }

  /** Between delimited literals different space-free insertions give different texts. */
  lemma {:induction false} WeaveInjective(lits: seq<string>, xs: seq<string>, ys: seq<string>)
    requires |lits| == |xs| + 1 == |ys| + 1 && Delimited(lits) && AllSpaceFree(xs) && AllSpaceFree(ys)
    ensures Weave(lits, xs) == Weave(lits, ys) <==> xs == ys
  {
    hide IsSpace, SpaceFree;
    if xs != [] && Weave(lits, xs) == Weave(lits, ys) {
      var a, b := Weave(lits[1..], xs[1..]), Weave(lits[1..], ys[1..]);
      assert Weave(lits, xs) == lits[0] + (xs[0] + a);
      assert Weave(lits, ys) == lits[0] + (ys[0] + b);
      CancelLeft(lits[0], xs[0] + a, ys[0] + b);
      WeaveStart(lits[1..], xs[1..]);
      WeaveStart(lits[1..], ys[1..]);
      assert xs[0] in xs && ys[0] in ys;
      CutAtSpace(xs[0], ys[0], a, b);
      WeaveInjective(lits[1..], xs[1..], ys[1..]);
      assert xs == [xs[0]] + xs[1..] && ys == [ys[0]] + ys[1..];
    }
  }

  lemma SpaceFreeAppend(a: string, b: string)
    ensures SpaceFree(a + b) <==> SpaceFree(a) && SpaceFree(b)
  {
    hide IsSpace;
    var s := a + b;
    if SpaceFree(s) {
      assert forall i :: 0 <= i < |a| ==> s[i] == a[i];
      assert forall i :: 0 <= i < |b| ==> s[|a| + i] == b[i];
    }
  }

  /** Names and ids hold no white space. */
  ghost predicate Clean(markers: seq<Marker>) {
    forall m :: m in markers ==> SpaceFree(m.name) && SpaceFree(m.id)
  }

  lemma LinkSpaceFree(m: Marker)
    requires SpaceFree(m.name) && SpaceFree(m.id)
    ensures SpaceFree(Link(m)) && Link(m)[0] == '['
  {
    hide SpaceFree;
    var shown := if m.kind.Issue? then m.name else "@" + m.name;
    assert SpaceFree("[") && SpaceFree("@") && SpaceFree("](mention://") && SpaceFree("/") && SpaceFree(")") by {
      FixedParts();
    }
    assert SpaceFree(Scheme(m.kind)) by { FixedParts(); }
    SpaceFreeAppend("@", m.name);
    var p1 := "[" + shown;
    var p2 := p1 + "](mention://";
    var p3 := p2 + Scheme(m.kind);
    var p4 := p3 + "/";
    var p5 := p4 + m.id;
    SpaceFreeAppend("[", shown);
    SpaceFreeAppend(p1, "](mention://");
    SpaceFreeAppend(p2, Scheme(m.kind));
    SpaceFreeAppend(p3, "/");
    SpaceFreeAppend(p4, m.id);
    SpaceFreeAppend(p5, ")");
    assert Link(m) == p5 + ")";
  }

  lemma FixedParts()
    ensures SpaceFree("[") && SpaceFree("@") && SpaceFree("](mention://") && SpaceFree("/") && SpaceFree(")")
    ensures forall kind :: SpaceFree(Scheme(kind))
  {
    forall kind ensures SpaceFree(Scheme(kind)) {
      match kind
      case Member =>
      case Agent =>
      case Squad =>
      case All =>
      case Issue =>
    }
  }

  lemma {:induction false} LinksSpaceFree(markers: seq<Marker>)
    requires Clean(markers)
    ensures AllSpaceFree(Links(markers))
    ensures markers != [] ==> Links(markers)[0] == Link(markers[0])
  {
    hide SpaceFree, Link;
    if markers != [] {
      assert markers[0] in markers;
      LinkSpaceFree(markers[0]);
      LinksSpaceFree(markers[1..]);
    }
  }

  lemma {:induction false} StripSpaceFree(s: string)
    requires SpaceFree(s)
    ensures SpaceFree(Strip(s))
  {
    hide IsSpace;
    if s != "" {
      StripSpaceFree(s[1..]);
      SpaceFreeAppend(if s[0] == SENTINEL then "" else [s[0]], Strip(s[1..]));
    }
  }

  lemma {:induction false} ShownSpaceFree(words: seq<string>)
    requires AllSpaceFree(words)
    ensures AllSpaceFree(Shown(words))
    ensures words != [] ==> Shown(words)[0] != "" && Shown(words)[0][0] == '@'
  {
    hide SpaceFree, Strip;
    if words != [] {
      assert words[0] in words;
      StripSpaceFree(words[0]);
      FixedParts();
      SpaceFreeAppend("@", Strip(words[0]));
      ShownSpaceFree(words[1..]);
    }
  }

  // ---------------------------------------------------------------------------
  // When every run gets its own link
  // ---------------------------------------------------------------------------

  /** For every text, every list of markers and every assignment of owners to its runs: the serializer
      prints each run as its owner's link if and only if the markers, in the order of choosing, have the
      names and the links of the owners, in text order. (Without any run there is nothing to print.) */
  lemma PublishedIff(text: string, markers: seq<Marker>, owners: seq<Marker>)
    requires RunWords(text) == Names(owners) && Clean(markers) && Clean(owners)
    ensures Published(text, markers, owners)
       <==> owners == [] || (Names(markers) == Names(owners) && Links(markers) == Links(owners))
  {
    hide Lex, Words, Weave, Link, SpaceFree, Strip, Literals, Linked, Delimited;
    var lits := Literals(Lex(text));
    LexDelimits(text);
    LinksSpaceFree(owners);
    if Names(markers) == Names(owners) {
      LinkedIsWoven(Lex(text), markers);
      LinksSpaceFree(markers);
      WeaveInjective(lits, Links(markers), Links(owners));
    } else {
      StripIsWoven(text);
      WordsAreSpaceFree(text);
      ShownSpaceFree(RunWords(text));
      WeaveInjective(lits, Shown(RunWords(text)), Links(owners));
      if owners != [] {
        assert owners[0] in owners;
        LinkSpaceFree(owners[0]);
        assert Shown(RunWords(text))[0] != Links(owners)[0];
      }
    }
  }

  lemma {:induction false} LinksAppend(a: seq<Marker>, b: seq<Marker>)
    ensures Links(a + b) == Links(a) + Links(b)
  {
    hide Link;
    if a == [] {
      assert a + b == b;
    } else {
      assert (a + b)[1..] == a[1..] + b;
      LinksAppend(a[1..], b);
    }
  }

  lemma NamesConcat(a: seq<Marker>, b: seq<Marker>)
    ensures Names(a + b) == Names(a) + Names(b)
  {
  }

  /** Where a choice puts its owner. */
  lemma OwnersAround(left: seq<Marker>, mention: Marker, right: seq<Marker>)
    ensures Names(left + [mention] + right) == Names(left) + [mention.name] + Names(right)
    ensures Links(left + [mention] + right) == Links(left) + [Link(mention)] + Links(right)
  {
    hide Link, Names, Links;
    OneOwner(mention);
    NamesConcat(left, [mention]);
    NamesConcat(left + [mention], right);
    LinksAppend(left, [mention]);
    LinksAppend(left + [mention], right);
  }

  lemma OneOwner(mention: Marker)
    ensures Names([mention]) == [mention.name] && Links([mention]) == [Link(mention)]
  {
    hide Link;
  }

  /** Let every run have its own link, `left` and `right` owning the runs before and behind the token.
      After a choice every run, the new one included, has its own link if and only if all the owners to the
      right show the same name and have the same link as the one chosen. */
  lemma SelectionKeepsOwnersIff(s: State, mention: Marker, left: seq<Marker>, right: seq<Marker>)
    requires Fresh(s) && s.mentioning.Some? && SENTINEL !in s.mentioning.value.query
    requires Clean(s.markers + left + [mention] + right)
    requires RunWords(s.text[..s.mentioning.value.start]) == Names(left)
    requires RunWords(s.text[s.mentioning.value.start..]) == Names(right)
    requires Names(s.markers) == Names(left + right) && Links(s.markers) == Links(left + right)
    ensures RunWords(MentionSelected(s, mention).text) == Names(left + [mention] + right)
    ensures Published(MentionSelected(s, mention).text, MentionSelected(s, mention).markers, left + [mention] + right)
       <==> AllEqual(Names(right), mention.name) && AllEqual(Links(right), Link(mention))
  {
    var t, owners := MentionSelected(s, mention), left + [mention] + right;
    hide RunWords, SpaceFree, Link, Names, Links, AllEqual, Fresh, Published;
    CleanParts(s.markers, left, mention, right);
    SelectionWords(s, mention);
    OwnersAround(left, mention, right);
    NamesConcat(left, right);
    LinksAppend(left, right);
    OwnersAround(s.markers, mention, []);
    assert s.markers + [mention] + [] == s.markers + [mention] == t.markers;
    PublishedIff(t.text, t.markers, owners);
    InsertOrAppend(Names(left), Names(right), mention.name);
    InsertOrAppend(Links(left), Links(right), Link(mention));
    NoOwners();
  }

  lemma NoOwners()
    ensures Names([]) == [] && Links([]) == []
  {
  }

  lemma CleanParts(markers: seq<Marker>, left: seq<Marker>, mention: Marker, right: seq<Marker>)
    requires Clean(markers + left + [mention] + right)
    ensures SpaceFree(mention.name)
    ensures Clean(markers + [mention]) && Clean(left + [mention] + right)
  {
    hide SpaceFree;
    var all := markers + left + [mention] + right;
    assert all[|markers + left|] == mention;
    assert mention in all;
    forall m | m in markers + [mention] || m in left + [mention] + right
      ensures m in all
    {
    }
  }
}
