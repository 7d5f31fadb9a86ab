/** The rewriter of legacy mention shortcodes (packages/core/markdown/mention-shortcodes.ts). */
module MentionShortcodes {
  import opened Text

  // ---------------------------------------------------------------------------
  // Attributes: the global expression (\w+)="([^"]*)"
  // ---------------------------------------------------------------------------

  predicate IsWordChar(c: char) {
    'a' <= c <= 'z' || 'A' <= c <= 'Z' || '0' <= c <= '9' || c == '_'
  }

  /** End of the run of word characters that starts at `from`. */
  function WordEnd(s: string, from: nat): (end: nat)
    requires from <= |s|
    ensures from <= end <= |s|
    ensures forall k :: from <= k < end ==> IsWordChar(s[k])
    ensures end < |s| ==> !IsWordChar(s[end])
    decreases |s| - from
  {
    if from == |s| || !IsWordChar(s[from]) then from else WordEnd(s, from + 1)
  }

  datatype Attribute = Attribute(name: string, value: string, end: nat)

  /** The match that starts exactly at `at`: the word run is maximal, since `=` is no word character. */
  function MatchAt(s: string, at: nat): (m: Option<Attribute>)
    requires at < |s|
    ensures m.Some? ==> at < m.value.end <= |s|
    ensures m.Some? ==> '"' !in m.value.value && forall c :: c in m.value.value ==> c in s
    ensures m.Some? ==> exists k :: at < k < m.value.end && s[k] == '"'
  {
    var eq := WordEnd(s, at);
    if at < eq && eq + 1 < |s| && s[eq] == '=' && s[eq + 1] == '"' then
      var close := IndexOf(s, '"', eq + 2);
      if close == -1 then None else Some(Attribute(s[at..eq], s[eq + 2..close], close + 1))
    else
      None
  }

  /** `exec` with `lastIndex` at `from`: the leftmost match. */
  function Exec(s: string, from: nat): (m: Option<Attribute>)
    ensures m.Some? ==> from < m.value.end <= |s|
    ensures m.Some? ==> '"' !in m.value.value && forall c :: c in m.value.value ==> c in s
    ensures m.Some? ==> '"' in s
    decreases |s| - from
  {
    if from >= |s| then None
    else if MatchAt(s, from).Some? then MatchAt(s, from)
    else Exec(s, from + 1)
  }

  /** All attributes from `from` on; of two with one name the later wins. */
  function Attrs(s: string, from: nat): (attrs: map<string, string>)
    ensures forall name :: name in attrs ==> '"' !in attrs[name] && forall c :: c in attrs[name] ==> c in s
    ensures '"' !in s ==> attrs == map[]
    decreases |s| - from
  {
    match Exec(s, from)
    case None => map[]
    case Some(m) => map[m.name := m.value] + Attrs(s, m.end)
  }

  method ReadAttrs(attrString: string) returns (attrs: map<string, string>)
    ensures attrs == Attrs(attrString, 0)
  {
    hide Attrs, Exec;
    attrs := map[];
    var lastIndex := 0;
    var m := Exec(attrString, lastIndex);
    while m.Some?
      invariant m == Exec(attrString, lastIndex)
      invariant attrs + Attrs(attrString, lastIndex) == Attrs(attrString, 0)
      decreases |attrString| - lastIndex
    {
      AttrsStep(attrString, lastIndex);
      attrs := attrs[m.value.name := m.value.value];
      lastIndex := m.value.end;
      m := Exec(attrString, lastIndex);
    }
    AttrsStep(attrString, lastIndex);
  }

  lemma AttrsStep(s: string, from: nat)
    ensures match Exec(s, from)
            case None => Attrs(s, from) == map[]
            case Some(m) => Attrs(s, from) == map[m.name := m.value] + Attrs(s, m.end)
  {
  }

  // ---------------------------------------------------------------------------
  // The rewrite: /\[@\s+([^\]]*)\]/g
  // ---------------------------------------------------------------------------

  predicate OpenerAt(t: string, i: nat) {
    i + 2 < |t| && t[i] == '[' && t[i + 1] == '@' && IsSpace(t[i + 2])
  }

  /** A match starts at the front of `t`; it ends at the first `]`. */
  predicate Opens(t: string) {
    OpenerAt(t, 0) && ']' in t
  }

  function CloseAt(t: string): (close: nat)
    requires ']' in t
    ensures close < |t| && t[close] == ']' && ']' !in t[..close]
    ensures OpenerAt(t, 0) ==> 3 <= close
  {
    var close := IndexOf(t, ']', 0);
    assert close != -1;
    close
  }

  function SkipSpaces(s: string, from: nat): (end: nat)
    requires from <= |s|
    ensures from <= end <= |s|
    decreases |s| - from
  {
    if from == |s| || !IsSpace(s[from]) then from else SkipSpaces(s, from + 1)
  }

  function AttrString(segment: string): string
    requires |segment| >= 3
  {
    var inner := segment[..|segment| - 1];
    inner[SkipSpaces(inner, 2)..]
  }

  function Lookup(attrs: map<string, string>, name: string): string {
    if name in attrs then attrs[name] else ""
  }

  function Link(id: string, caption: string): string {
    "[@" + caption + "]" + ("(mention://member/" + id + ")")
  }

  predicate Convertible(segment: string)
    requires |segment| >= 3
  {
    var attrs := Attrs(AttrString(segment), 0);
    Lookup(attrs, "id") != "" && Lookup(attrs, "label") != ""
  }

  function IdOf(segment: string): string
    requires |segment| >= 3
  {
    Lookup(Attrs(AttrString(segment), 0), "id")
  }

  function Convert(segment: string): string
    requires |segment| >= 3
  {
    var attrs := Attrs(AttrString(segment), 0);
    if Convertible(segment) then Link(Lookup(attrs, "id"), Lookup(attrs, "label")) else segment
  }

  method ReplaceMatch(segment: string) returns (r: string)
    requires |segment| >= 3
    ensures r == Convert(segment)
  {
    var attrs := ReadAttrs(AttrString(segment));
    var id, caption := Lookup(attrs, "id"), Lookup(attrs, "label");
    if id == "" || caption == "" {
      return segment;
    }
    return Link(id, caption);
  }

  function Rewrite(t: string): string
    decreases |t|
  {
    if t == "" then ""
    else if Opens(t) then Convert(t[..CloseAt(t) + 1]) + Rewrite(t[CloseAt(t) + 1..])
    else [t[0]] + Rewrite(t[1..])
  }

  predicate HasOpener(t: string) {
    exists i :: 0 <= i < |t| && SpaceOpenerAt(t, i)
  }

  predicate SpaceOpenerAt(t: string, i: nat) {
    i + 2 < |t| && t[i] == '[' && t[i + 1] == '@' && t[i + 2] == ' '
  }

  function Preprocess(text: string): string {
    if HasOpener(text) then Rewrite(text) else text
  }

  // ---------------------------------------------------------------------------
  // How the rewrite reads its input
  // ---------------------------------------------------------------------------

  lemma RewriteEmpty()
    ensures Rewrite("") == ""
  {
  }

  lemma RewriteSegment(segment: string, rest: string)
    requires OpenerAt(segment, 0) && ']' in segment && CloseAt(segment) == |segment| - 1
    ensures Rewrite(segment + rest) == Convert(segment) + Rewrite(rest)
  {
    hide Convert;
    var t := segment + rest;
    assert CloseAt(t) == |segment| - 1 by {
      assert t[|segment| - 1] == ']';
      assert forall k :: 0 <= k < |segment| - 1 ==> t[k] == segment[..|segment| - 1][k];
    }
    assert t[..|segment|] == segment && t[|segment|..] == rest;
  }

  lemma RewriteChar(t: string)
    requires t != "" && !Opens(t)
    ensures Rewrite(t) == [t[0]] + Rewrite(t[1..])
  {
  }

  /** Text before the next opener is copied. */
  lemma {:induction false} RewritePlain(s: string, rest: string)
    requires forall i :: 0 <= i < |s| ==> !OpenerAt(s + rest, i)
    ensures Rewrite(s + rest) == s + Rewrite(rest)
  {
    hide Rewrite;
    if s == "" {
      assert s + rest == rest;
    } else {
      var t := s + rest;
      assert t[1..] == s[1..] + rest;
      assert forall i :: 0 <= i < |s| - 1 ==> OpenerAt(t[1..], i) == OpenerAt(t, i + 1);
      RewriteChar(t);
      RewritePlain(s[1..], rest);
    }
  }

  /** Without a closing bracket nothing changes. */
  lemma {:induction false} RewriteUnclosed(t: string)
    requires ']' !in t
    ensures Rewrite(t) == t
  {
    if t != "" {
      RewriteUnclosed(t[1..]);
    }
  }

  /** A bracket without quotes inside is copied, even where an opener stands in it. */
  lemma {:induction false} RewriteQuoteless(s: string, rest: string)
    requires ']' !in s && '"' !in s
    ensures Rewrite(s + "]" + rest) == s + "]" + Rewrite(rest)
  {
    hide Rewrite;
    var t := s + "]" + rest;
    if OpenerAt(s + "]", 0) {
      assert CloseAt(s + "]") == |s|;
      RewriteSegment(s + "]", rest);
    } else {
      assert !OpenerAt(t, 0);
      RewriteChar(t);
      if s == "" {
        assert t[1..] == rest;
      } else {
        assert t[1..] == s[1..] + "]" + rest;
        RewriteQuoteless(s[1..], rest);
      }
    }
  }

  /** The rewrite never changes the first character. */
  lemma FirstCharKept(t: string)
    requires t != ""
    ensures Rewrite(t) != "" && Rewrite(t)[0] == t[0]
  {
    if Opens(t) {
      assert t[..CloseAt(t) + 1][0] == '[';
    }
  }

  // ---------------------------------------------------------------------------
  // Idempotence
  // ---------------------------------------------------------------------------

  /** No opener hides in the id. */
  predicate SafeId(id: string) {
    forall i :: 0 <= i < |id| ==> !OpenerAt(id, i)
  }

  /** Every shortcode that gets converted carries a safe id. */
  predicate SafeIds(t: string)
    decreases |t|
  {
    if t == "" then true
    else if Opens(t) then
      var segment := t[..CloseAt(t) + 1];
      (Convertible(segment) ==> SafeId(IdOf(segment))) && SafeIds(t[CloseAt(t) + 1..])
    else SafeIds(t[1..])
  }

  lemma AttributesAreClean(segment: string)
    requires OpenerAt(segment, 0) && ']' in segment && CloseAt(segment) == |segment| - 1
    ensures var attrs := Attrs(AttrString(segment), 0);
      forall name :: var v := Lookup(attrs, name); '"' !in v && ']' !in v
  {
    hide Attrs;
    var inner := segment[..|segment| - 1];
    var attrString := AttrString(segment);
    assert ']' !in inner;
    assert forall c :: c in attrString ==> c in inner;
  }

  /** The link of a safe id is left alone, whatever follows it. */
  lemma LinkIsStable(id: string, caption: string, rest: string)
    requires SafeId(id) && ']' !in caption && '"' !in caption
    ensures Rewrite(Link(id, caption) + rest) == Link(id, caption) + Rewrite(rest)
  {
    hide Rewrite;
    var target := "(mention://member/" + id + ")";
    assert Link(id, caption) + rest == ("[@" + caption) + "]" + (target + rest);
    RewriteQuoteless("[@" + caption, target + rest);
    forall i | 0 <= i < |target|
      ensures !OpenerAt(target + rest, i)
    {
      TargetHasNoOpener(id, rest, i);
    }
    RewritePlain(target, rest);
  }

  lemma TargetHasNoOpener(id: string, rest: string, i: nat)
    requires SafeId(id)
    requires i < |"(mention://member/" + id + ")"|
    ensures !OpenerAt("(mention://member/" + id + ")" + rest, i)
  {
    var head := "(mention://member/";
    var t := head + id + ")" + rest;
    var n := |head|;
    assert forall k :: 0 <= k < n ==> t[k] == head[k] && t[k] != '[';
    assert forall k :: 0 <= k < |id| ==> t[n + k] == id[k];
    assert t[n + |id|] == ')';
    if n <= i < n + |id| {
      assert !OpenerAt(id, i - n);
    }
  }

  lemma {:induction false} RewriteTwice(t: string)
    requires SafeIds(t)
    ensures Rewrite(Rewrite(t)) == Rewrite(t)
    decreases |t|
  {
    hide Rewrite, Convertible, Link, SafeId;
    if t == "" {
      RewriteEmpty();
    } else if Opens(t) {
      var segment, rest := t[..CloseAt(t) + 1], t[CloseAt(t) + 1..];
      assert t == segment + rest;
      assert CloseAt(segment) == |segment| - 1;
      RewriteSegment(segment, rest);
      RewriteTwice(rest);
      if Convertible(segment) {
        AttributesAreClean(segment);
        LinkIsStable(IdOf(segment), Lookup(Attrs(AttrString(segment), 0), "label"), Rewrite(rest));
      } else {
        RewriteSegment(segment, Rewrite(rest));
      }
    } else {
      RewriteChar(t);
      RewriteTwice(t[1..]);
      NoNewOpening(t);
      RewriteChar(Rewrite(t));
      assert Rewrite(t)[1..] == Rewrite(t[1..]);
    }
  }

  /** Rewriting what follows a plain character does not complete an opener in front of it. */
  lemma NoNewOpening(t: string)
    requires t != "" && !Opens(t)
    ensures Rewrite(t) != "" && !Opens(Rewrite(t))
  {
    hide Rewrite;
    RewriteChar(t);
    var u := Rewrite(t);
    if OpenerAt(u, 0) && |t| > 1 {
      FirstCharKept(t[1..]);
      assert t[1] == u[1] == '@';
      RewriteChar(t[1..]);
      assert t[1..][1..] == t[2..] && u[2] == Rewrite(t[2..])[0];
      if t[2..] != "" {
        FirstCharKept(t[2..]);
        assert OpenerAt(t, 0);
        RewriteUnclosed(t);
      } else {
        RewriteEmpty();
      }
    } else if |t| == 1 {
      assert t[1..] == "";
      RewriteEmpty();
    }
  }

  /** Running the rewriter on its own output changes nothing when every converted id is safe. */
  lemma PreprocessTwice(text: string)
    requires SafeIds(text)
    ensures Preprocess(Preprocess(text)) == Preprocess(text)
  {
    if HasOpener(text) {
      RewriteTwice(text);
    }
  }

  // ---------------------------------------------------------------------------
  // What is converted, and what is not touched
  // ---------------------------------------------------------------------------

  /** The segments that the rewrite converts, in order, and the text around them. */
  function Segments(t: string): seq<string>
    decreases |t|
  {
    if t == "" then []
    else if Opens(t) then
      var segment := t[..CloseAt(t) + 1];
      (if Convertible(segment) then [segment] else []) + Segments(t[CloseAt(t) + 1..])
    else Segments(t[1..])
  }

  function Converted(segments: seq<string>): (r: seq<string>)
    ensures |r| == |segments|
  {
    seq(|segments|, i requires 0 <= i < |segments| => if |segments[i]| >= 3 then Convert(segments[i]) else segments[i])
  }

  predicate IsShortcode(segment: string) {
    OpenerAt(segment, 0) && ']' in segment && CloseAt(segment) == |segment| - 1 && Convertible(segment)
  }

  lemma {:induction false} SegmentsAreShortcodes(t: string)
    ensures forall segment :: segment in Segments(t) ==> IsShortcode(segment)
    decreases |t|
  {
    hide Convertible;
    if t == "" {
    } else if Opens(t) {
      var segment := t[..CloseAt(t) + 1];
      assert CloseAt(segment) == |segment| - 1;
      SegmentsAreShortcodes(t[CloseAt(t) + 1..]);
    } else {
      SegmentsAreShortcodes(t[1..]);
    }
  }

  lemma ConvertedCons(segment: string, segments: seq<string>)
    requires |segment| >= 3
    ensures Converted([segment] + segments) == [Convert(segment)] + Converted(segments)
  {
  }

  /** `lits` is the text around the shortcodes of `t`, both before and after the rewrite. */
  ghost predicate Around(t: string, lits: seq<string>) {
    && |lits| == |Segments(t)| + 1
    && t == Weave(lits, Segments(t))
    && Rewrite(t) == Weave(lits, Converted(Segments(t)))
  }

  lemma AroundSegment(t: string, more: seq<string>) returns (lits: seq<string>)
    requires t != "" && Opens(t) && Around(t[CloseAt(t) + 1..], more)
    ensures Around(t, lits)
  {
    hide Rewrite, Convert, Convertible, Segments, Weave, Converted;
    var segment, rest := t[..CloseAt(t) + 1], t[CloseAt(t) + 1..];
    assert t == segment + rest && CloseAt(segment) == |segment| - 1;
    RewriteSegment(segment, rest);
    SegmentsStep(t);
    if Convertible(segment) {
      lits := [""] + more;
      AroundConverted(segment, rest, more);
    } else {
      UnconvertedKept(segment);
      assert Segments(t) == Segments(rest);
      lits := [segment + more[0]] + more[1..];
      WeaveLonger(segment, more, Segments(rest));
      WeaveLonger(segment, more, Converted(Segments(rest)));
    }
  }

  lemma AroundConverted(segment: string, rest: string, more: seq<string>)
    requires Around(rest, more) && |segment| >= 3
    ensures var segments := [segment] + Segments(rest);
      && segment + rest == Weave([""] + more, segments)
      && Convert(segment) + Rewrite(rest) == Weave([""] + more, Converted(segments))
  {
    hide Rewrite, Convert, Segments, Weave, Converted;
    ConvertedCons(segment, Segments(rest));
    WeaveCons("", segment, more, Segments(rest));
    WeaveCons("", Convert(segment), more, Converted(Segments(rest)));
  }

  lemma AroundChar(t: string, more: seq<string>) returns (lits: seq<string>)
    requires t != "" && !Opens(t) && Around(t[1..], more)
    ensures Around(t, lits)
  {
    hide Rewrite, Segments, Weave, Converted;
    RewriteChar(t);
    SegmentsStep(t);
    lits := [[t[0]] + more[0]] + more[1..];
    assert t == [t[0]] + t[1..];
    WeaveLonger([t[0]], more, Segments(t[1..]));
    WeaveLonger([t[0]], more, Converted(Segments(t[1..])));
  }

  /** The text is literals around shortcodes, and rewriting replaces each shortcode by its link
      and leaves every literal as it was: brackets without an id or a label are literals. */
  lemma {:induction false} OnlyShortcodesChange(t: string) returns (lits: seq<string>)
    ensures |lits| == |Segments(t)| + 1
    ensures t == Weave(lits, Segments(t))
    ensures Rewrite(t) == Weave(lits, Converted(Segments(t)))
    decreases |t|
  {
    hide Rewrite, Segments, Weave, Converted, Opens;
    if t == "" {
      RewriteEmpty();
      WeaveNothing();
      return [""];
    }
    if Opens(t) {
      OpensMeans(t);
      var more := OnlyShortcodesChange(t[CloseAt(t) + 1..]);
      lits := AroundSegment(t, more);
    } else {
      var more := OnlyShortcodesChange(t[1..]);
      lits := AroundChar(t, more);
    }
  }

  lemma WeaveNothing()
    ensures Weave([""], []) == "" && Segments("") == [] && Converted([]) == []
  {
  }

  lemma WeaveCons(lit: string, insert: string, lits: seq<string>, inserts: seq<string>)
    requires |lits| == |inserts| + 1
    ensures Weave([lit] + lits, [insert] + inserts) == lit + insert + Weave(lits, inserts)
  {
    assert ([lit] + lits)[1..] == lits && ([insert] + inserts)[1..] == inserts;
  }

  lemma SegmentsStep(t: string)
    requires t != ""
    ensures Opens(t) ==>
              Segments(t) == (if Convertible(t[..CloseAt(t) + 1]) then [t[..CloseAt(t) + 1]] else [])
                             + Segments(t[CloseAt(t) + 1..])
    ensures !Opens(t) ==> Segments(t) == Segments(t[1..])
  {
  }

  lemma OpensMeans(t: string)
    ensures Opens(t) <==> OpenerAt(t, 0) && ']' in t
  {
  }

  lemma UnconvertedKept(segment: string)
    requires |segment| >= 3 && !Convertible(segment)
    ensures Convert(segment) == segment
  {
  }

  // ---------------------------------------------------------------------------
  // The legacy shortcode, and exactly which ids are safe in it
  // ---------------------------------------------------------------------------

  predicate AttributeValue(v: string) {
    v != "" && '"' !in v && ']' !in v
  }

  function Shortcode(id: string, caption: string): string {
    "[@ " + (Quoted(id, caption) + "]")
  }

  function Quoted(id: string, caption: string): string {
    "id=\"" + (id + ("\" label=\"" + (caption + "\"")))
  }

  lemma WordEndIs(s: string, from: nat, end: nat)
    requires from <= end <= |s|
    requires forall k :: from <= k < end ==> IsWordChar(s[k])
    requires end < |s| ==> !IsWordChar(s[end])
    ensures WordEnd(s, from) == end
  {
  }

  lemma IndexOfIs(s: string, c: char, from: nat, at: nat)
    requires from <= at < |s| && s[at] == c
    requires forall k :: from <= k < at ==> s[k] != c
    ensures IndexOf(s, c, from) == at
  {
  }

  /** One attribute `name="value"` standing at `at`. */
  lemma MatchIs(s: string, at: nat, name: string, value: string, post: string)
    requires name != "" && forall k :: 0 <= k < |name| ==> IsWordChar(name[k])
    requires '"' !in value
    requires at <= |s| && s[at..] == name + ("=\"" + (value + ("\"" + post)))
    ensures Exec(s, at) == Some(Attribute(name, value, at + |name| + |value| + 3))
  {
    hide WordEnd, IndexOf, IsWordChar, Exec;
    var u := s[at..];
    var eq, close := at + |name|, at + |name| + 2 + |value|;
    PieceOf(name, value, post);
    assert s[eq] == u[|name|] && s[eq + 1] == u[|name| + 1] && s[close] == u[|name| + 2 + |value|];
    assert s[at..eq] == u[..|name|] && s[eq + 2..close] == u[|name| + 2..|name| + 2 + |value|];
    assert forall k :: at <= k < eq ==> s[k] == name[k - at];
    assert forall k :: eq + 2 <= k < close ==> s[k] == value[k - (eq + 2)];
    MatchFrom(s, at, eq, close);
  }

  lemma PieceOf(name: string, value: string, post: string)
    ensures var u := name + ("=\"" + (value + ("\"" + post)));
      && u[..|name|] == name
      && u[|name|] == '=' && u[|name| + 1] == '"'
      && u[|name| + 2..|name| + 2 + |value|] == value
      && u[|name| + 2 + |value|] == '"'
      && (forall k :: 0 <= k < |name| ==> u[k] == name[k])
      && (forall k :: 0 <= k < |value| ==> u[|name| + 2 + k] == value[k])
  {
  }

  lemma MatchFrom(s: string, at: nat, eq: nat, close: nat)
    requires at < eq && eq + 2 <= close < |s|
    requires forall k :: at <= k < eq ==> IsWordChar(s[k])
    requires s[eq] == '=' && s[eq + 1] == '"' && s[close] == '"'
    requires forall k :: eq + 2 <= k < close ==> s[k] != '"'
    ensures Exec(s, at) == Some(Attribute(s[at..eq], s[eq + 2..close], close + 1))
  {
    hide WordEnd, IndexOf, IsWordChar;
    assert !IsWordChar('=') by { EqualsSignIsNoWord(); }
    WordEndIs(s, at, eq);
    IndexOfIs(s, '"', eq + 2, close);
  }

  lemma EqualsSignIsNoWord()
    ensures !IsWordChar('=') && !IsWordChar(' ') && !IsWordChar(')')
  {
  }

  /** Positions where no attribute starts can be skipped. */
  lemma {:induction false} ExecSkips(s: string, from: nat, to: nat)
    requires from <= to <= |s|
    requires forall p :: from <= p < to ==> MatchAt(s, p) == None
    ensures Exec(s, from) == Exec(s, to) && Attrs(s, from) == Attrs(s, to)
    decreases |s| - from
  {
    hide MatchAt;
    if from < to {
      assert MatchAt(s, from) == None;
      ExecSkips(s, from + 1, to);
    }
  }

  lemma QuotedShape(id: string, caption: string)
    ensures Quoted(id, caption) == "id" + ("=\"" + (id + ("\"" + LabelPart(caption))))
    ensures Quoted(id, caption)[|id| + 5..] == LabelPart(caption)
    ensures LabelPart(caption)[1..] == "label" + ("=\"" + (caption + ("\"" + "")))
  {
  }

  function LabelPart(caption: string): string {
    " label=\"" + (caption + "\"")
  }

  lemma TwoAttributes(s: string, at: nat, id: string, caption: string)
    requires at <= |s| && s[at..] == Quoted(id, caption)
    requires '"' !in id && '"' !in caption
    ensures Attrs(s, at) == map["id" := id, "label" := caption]
  {
    hide Exec, Attrs, MatchAt, Quoted;
    var next := at + |id| + 5;
    QuotedShape(id, caption);
    MatchIs(s, at, "id", id, LabelPart(caption));
    AttrsStep(s, at);
    assert s[next..] == s[at..][|id| + 5..];
    LabelAttribute(s, next, caption);
  }

  lemma LabelAttribute(s: string, at: nat, caption: string)
    requires at <= |s| && s[at..] == LabelPart(caption)
    requires '"' !in caption
    ensures Attrs(s, at) == map["label" := caption]
  {
    hide Exec, Attrs, MatchAt;
    QuotedShape("", caption);
    assert s[at] == s[at..][0] == ' ';
    NoMatchAtSpace(s, at);
    ExecSkips(s, at, at + 1);
    assert s[at + 1..] == s[at..][1..];
    MatchIs(s, at + 1, "label", caption, "");
    AttrsStep(s, at + 1);
    ExecAtEnd(s);
    AttrsStep(s, |s|);
  }

  lemma ExecAtEnd(s: string)
    ensures Exec(s, |s|) == None
  {
  }

  lemma NoMatchAtSpace(s: string, at: nat)
    requires at < |s| && s[at] == ' '
    ensures MatchAt(s, at) == None
  {
    WordEndIs(s, at, at);
  }

  lemma {:induction false} SkipSpacesIs(s: string, from: nat, end: nat)
    requires from <= end < |s| && !IsSpace(s[end])
    requires forall k :: from <= k < end ==> IsSpace(s[k])
    ensures SkipSpaces(s, from) == end
    decreases |s| - from
  {
    if from < end {
      SkipSpacesIs(s, from + 1, end);
    }
  }

  /** The legacy shortcode becomes the link, wherever it stands. */
  lemma ShortcodeConverts(id: string, caption: string, rest: string)
    requires AttributeValue(id) && AttributeValue(caption)
    ensures Rewrite(Shortcode(id, caption) + rest) == Link(id, caption) + Rewrite(rest)
    ensures SafeId(id) && SafeIds(rest) ==> SafeIds(Shortcode(id, caption) + rest)
  {
    hide Rewrite, Quoted, IsSpace, Link, SafeId, Attrs;
    var segment := Shortcode(id, caption);
    var q := Quoted(id, caption);
    QuotedFacts(id, caption);
    var inner := segment[..|segment| - 1];
    assert inner == "[@ " + q;
    SkipSpacesIs(inner, 2, 3);
    assert AttrString(segment) == q;
    assert q[0..] == q;
    TwoAttributes(q, 0, id, caption);
    assert CloseAt(segment) == |segment| - 1;
    RewriteSegment(segment, rest);
    SafeIdsSegment(segment, rest);
  }

  lemma QuotedFacts(id: string, caption: string)
    requires AttributeValue(id) && AttributeValue(caption)
    ensures Quoted(id, caption) != "" && Quoted(id, caption)[0] == 'i' && ']' !in Quoted(id, caption)
    ensures !IsSpace('i') && IsSpace(' ')
  {
  }

  lemma SafeIdsSegment(segment: string, rest: string)
    requires OpenerAt(segment, 0) && ']' in segment && CloseAt(segment) == |segment| - 1
    ensures SafeIds(segment + rest) <==> (Convertible(segment) ==> SafeId(IdOf(segment))) && SafeIds(rest)
  {
    var t := segment + rest;
    assert CloseAt(t) == |segment| - 1 by {
      assert t[|segment| - 1] == ']';
      assert forall k :: 0 <= k < |segment| - 1 ==> t[k] == segment[..|segment| - 1][k];
    }
    assert t[..|segment|] == segment && t[|segment|..] == rest;
  }

  // An id that hides an opener, and a continuation that turns the hidden opener into a shortcode.

  const HEAD := "(mention://member/"
  const BAIT := Quoted("1", "2")

  function FirstOpener(id: string, from: nat): (k: nat)
    requires exists i :: from <= i < |id| && OpenerAt(id, i)
    ensures from <= k < |id| && OpenerAt(id, k)
    ensures forall i :: from <= i < k ==> !OpenerAt(id, i)
    decreases |id| - from
  {
    if OpenerAt(id, from) then from else FirstOpener(id, from + 1)
  }

  lemma BaitFacts()
    ensures '[' !in BAIT && ']' !in BAIT && '[' !in HEAD
  {
  }

  /** The tail behind the link's id, read as attributes. */
  lemma BaitAttributes(x: string)
    requires '"' !in x
    ensures Attrs(x + (") " + BAIT), 0) == map["id" := "1", "label" := "2"]
  {
    hide Attrs, MatchAt, Quoted;
    var s := x + (") " + BAIT);
    forall p | 0 <= p < |x| + 2
      ensures MatchAt(s, p) == None
    {
      NothingBeforeBait(x, p);
    }
    ExecSkips(s, 0, |x| + 2);
    assert s[|x| + 2..] == BAIT;
    TwoAttributes(s, |x| + 2, "1", "2");
  }

  lemma NothingBeforeBait(x: string, p: nat)
    requires '"' !in x && p < |x| + 2
    ensures MatchAt(x + (") " + BAIT), p) == None
  {
    var s := x + (") " + BAIT);
    assert s[|x|] == ')' && s[|x| + 1] == ' ';
    var eq := WordEnd(s, p);
    assert !IsWordChar(')') && !IsWordChar(' ') by { EqualsSignIsNoWord(); }
    assert p < eq ==> eq <= |x|;
    assert forall k :: 0 <= k < |x| ==> s[k] == x[k];
  }

  /** The segment that the hidden opener starts converts to another mention. */
  lemma HiddenSegment(u: string)
    requires OpenerAt(u, 0) && '"' !in u && ']' !in u
    ensures var segment := u + (") " + BAIT) + "]";
      && OpenerAt(segment, 0) && ']' in segment && CloseAt(segment) == |segment| - 1
      && Convert(segment) == Link("1", "2")
  {
    hide Link, IsSpace, Quoted, Attrs;
    BaitFacts();
    var body := u + (") " + BAIT);
    var segment := body + "]";
    assert ']' !in body;
    assert segment[..|segment| - 1] == body;
    assert CloseAt(segment) == |segment| - 1;
    var skip := SkipSpaces(body, 2);
    assert body[|u|] == ')' && !IsSpace(')') by { EndsAtParenthesis(); }
    SkipStops(body, 2, |u|);
    assert AttrString(segment) == u[skip..] + (") " + BAIT);
    BaitAttributes(u[skip..]);
  }

  lemma EndsAtParenthesis()
    ensures !IsSpace(')')
  {
  }

  lemma {:induction false} SkipStops(s: string, from: nat, at: nat)
    requires from <= at < |s| && !IsSpace(s[at])
    ensures SkipSpaces(s, from) <= at
    decreases |s| - from
  {
    if from < at {
      SkipStops(s, from + 1, at);
    }
  }

  const TAIL := " " + BAIT + "]" + "[@ "

  lemma TailIsKept()
    ensures Rewrite(TAIL) == TAIL && SafeIds(TAIL)
  {
    hide Rewrite, Quoted;
    BaitFacts();
    var front := " " + BAIT + "]";
    assert TAIL == front + "[@ ";
    assert '[' !in front;
    assert forall i :: 0 <= i < |front| ==> TAIL[i] == front[i];
    RewritePlain(front, "[@ ");
    RewriteUnclosed("[@ ");
    SafeWithoutOpeners(TAIL, |front|);
  }

  lemma {:induction false} SafeWithoutOpeners(t: string, n: nat)
    requires n <= |t| && forall i :: 0 <= i < n ==> !OpenerAt(t, i)
    requires ']' !in t[n..]
    ensures SafeIds(t)
    decreases |t|
  {
    if t != "" {
      if n > 0 {
        assert forall i :: 0 <= i < n - 1 ==> OpenerAt(t[1..], i) == OpenerAt(t, i + 1);
        assert t[1..][n - 1..] == t[n..];
        SafeWithoutOpeners(t[1..], n - 1);
      } else {
        assert t[0..] == t;
        assert t[1..][0..] == t[1..];
        SafeWithoutOpeners(t[1..], 0);
      }
    }
  }

  /** The link of an unsafe id, rewritten once more, turns into a different text. */
  lemma UnsafeIdReopens(id: string)
    requires AttributeValue(id) && !SafeId(id)
    ensures Rewrite(Link(id, "x") + TAIL) != Link(id, "x") + TAIL
  {
    hide Rewrite, Quoted, IsSpace;
    var k := FirstOpener(id, 0);
    var u, plain := id[k..], HEAD + id[..k];
    var segment := u + (") " + BAIT) + "]";
    var rest := plain + (segment + "[@ ");
    assert Link(id, "x") + TAIL == ("[@x" + "]") + rest;
    RewriteQuoteless("[@x", rest);
    assert OpenerAt(u, 0);
    HiddenSegment(u);
    HeadHasNoOpener(id, k, segment + "[@ ");
    RewritePlain(plain, segment + "[@ ");
    RewriteSegment(segment, "[@ ");
    RewriteUnclosed("[@ ");
    var again := Link("1", "2") + "[@ ";
    assert Rewrite(rest) == plain + again;
    assert rest[|plain| + 2] == u[2] && (plain + again)[|plain| + 2] == again[2] == '2';
    assert !IsSpace('2') by { DigitIsNoSpace(); }
    var a, b := "[@x" + "]" + Rewrite(rest), "[@x" + "]" + rest;
    assert a[4 + |plain| + 2] != b[4 + |plain| + 2];
  }

  lemma DigitIsNoSpace()
    ensures !IsSpace('2')
  {
  }

  lemma HeadHasNoOpener(id: string, k: nat, rest: string)
    requires k + 2 < |id| && forall i :: 0 <= i < k ==> !OpenerAt(id, i)
    requires |rest| >= 3 && rest[0] == id[k] && rest[1] == id[k + 1] && rest[2] == id[k + 2]
    ensures forall i :: 0 <= i < |HEAD + id[..k]| ==> !OpenerAt(HEAD + id[..k] + rest, i)
  {
    hide IsSpace;
    BaitFacts();
    var n := |HEAD|;
    var t := HEAD + id[..k] + rest;
    assert forall j :: 0 <= j < n ==> t[j] == HEAD[j];
    assert forall j :: 0 <= j < k + 3 ==> t[n + j] == id[j];
    forall i | 0 <= i < n + k
      ensures !OpenerAt(t, i)
    {
      if i >= n {
        assert !OpenerAt(id, i - n);
      }
    }
  }

  ghost predicate Stable(text: string) {
    Preprocess(Preprocess(text)) == Preprocess(text)
  }

  /** The rewriter is idempotent on a shortcode in every context if and only if the shortcode's
      id holds no `[@` followed by white space. */
  lemma IdempotentIffSafeId(id: string)
    requires AttributeValue(id)
    ensures (forall caption, rest :: AttributeValue(caption) && SafeIds(rest) ==> Stable(Shortcode(id, caption) + rest))
       <==> SafeId(id)
  {
    hide Rewrite, SafeId, SafeIds, AttributeValue, Shortcode;
    if SafeId(id) {
      forall caption, rest | AttributeValue(caption) && SafeIds(rest)
        ensures Stable(Shortcode(id, caption) + rest)
      {
        ShortcodeConverts(id, caption, rest);
        PreprocessTwice(Shortcode(id, caption) + rest);
      }
    } else {
      UnsafeIdIsUnstable(id);
    }
  }

  lemma UnsafeIdIsUnstable(id: string)
    requires AttributeValue(id) && !SafeId(id)
    ensures AttributeValue("x") && SafeIds(TAIL) && !Stable(Shortcode(id, "x") + TAIL)
  {
    hide Rewrite, SafeId, SafeIds, Quoted;
    TailIsKept();
    var t, u := Shortcode(id, "x") + TAIL, Link(id, "x") + TAIL;
    ShortcodeConverts(id, "x", TAIL);
    UnsafeIdReopens(id);
    assert SpaceOpenerAt(t, 0);
    assert u[|u| - 3..] == "[@ ";
    assert u[|u| - 3] == u[|u| - 3..][0] && u[|u| - 2] == u[|u| - 3..][1] && u[|u| - 1] == u[|u| - 3..][2];
    assert SpaceOpenerAt(u, |u| - 3);
    assert Preprocess(t) == u && Preprocess(u) == Rewrite(u);
  }

  // ---------------------------------------------------------------------------
  // What the attribute expression matches
  // ---------------------------------------------------------------------------

  /** `name="value"` stands from `at` to `end`. */
  predicate StandsAt(s: string, at: nat, name: string, value: string, end: nat) {
    && at <= end <= |s| && s[at..end] == name + ("=\"" + (value + "\""))
    && name != "" && (forall c :: c in name ==> IsWordChar(c)) && '"' !in value
  }

  lemma MatchAtIff(s: string, at: nat, name: string, value: string, end: nat)
    requires at < |s|
    ensures MatchAt(s, at) == Some(Attribute(name, value, end)) <==> StandsAt(s, at, name, value, end)
  {
    hide IsWordChar, IndexOf, WordEnd;
    if StandsAt(s, at, name, value, end) {
      StandingMatches(s, at, name, value, end);
    } else if MatchAt(s, at) == Some(Attribute(name, value, end)) {
      MatchStands(s, at, name, value, end);
    }
  }

  lemma StandingMatches(s: string, at: nat, name: string, value: string, end: nat)
    requires StandsAt(s, at, name, value, end)
    ensures at < |s| && MatchAt(s, at) == Some(Attribute(name, value, end))
  {
    hide IsWordChar, IndexOf, WordEnd;
    var u := name + ("=\"" + (value + "\""));
    var eq, close := at + |name|, at + |name| + 2 + |value|;
    assert forall k :: at <= k < end ==> s[k] == s[at..end][k - at];
    assert u[|name|] == '=' && u[|name| + 1] == '"' && u[|name| + 2 + |value|] == '"' && close + 1 == end;
    assert forall k :: 0 <= k < |name| ==> u[k] == name[k];
    assert forall k :: 0 <= k < |value| ==> u[|name| + 2 + k] == value[k];
    assert s[at..eq] == name && s[eq + 2..close] == value;
    assert !IsWordChar('=') by { EqualsSignIsNoWord(); }
    WordEndIs(s, at, eq);
    IndexOfIs(s, '"', eq + 2, close);
  }

  lemma MatchStands(s: string, at: nat, name: string, value: string, end: nat)
    requires at < |s| && MatchAt(s, at) == Some(Attribute(name, value, end))
    ensures StandsAt(s, at, name, value, end)
  {
    hide IsWordChar;
    var eq := WordEnd(s, at);
    var close := IndexOf(s, '"', eq + 2);
    assert s[eq..eq + 2] == "=\"" && s[close..close + 1] == "\"";
    assert s[at..end] == s[at..eq] + (s[eq..eq + 2] + (s[eq + 2..close] + s[close..close + 1]));
  }

  /** The expression finds the leftmost position, from where it is asked to start, at which an attribute stands. */
  lemma {:induction false} ExecIff(s: string, from: nat, name: string, value: string, end: nat)
    ensures Exec(s, from) == Some(Attribute(name, value, end)) <==>
            exists at: nat ::
              && from <= at && StandsAt(s, at, name, value, end)
              && forall p, n, v, e :: from <= p < at ==> !StandsAt(s, p, n, v, e)
    decreases |s| - from
  {
    hide MatchAt, StandsAt;
    if from >= |s| {
      NothingStandsBehind(s, from);
    } else {
      forall n, v, e
        ensures MatchAt(s, from) == Some(Attribute(n, v, e)) <==> StandsAt(s, from, n, v, e)
      {
        MatchAtIff(s, from, n, v, e);
      }
      ExecIff(s, from + 1, name, value, end);
    }
  }

  lemma NothingStandsBehind(s: string, from: nat)
    requires from >= |s|
    ensures forall at, n, v, e :: from <= at ==> !StandsAt(s, at, n, v, e)
  {
    forall at: nat, n: string, v: string, e: nat | from <= at && at <= e <= |s|
      ensures s[at..e] != n + ("=\"" + (v + "\""))
    {
      assert |s[at..e]| == 0;
    }
  }

  // ---------------------------------------------------------------------------
  // Any attributes, in any order, through the exported function
  // ---------------------------------------------------------------------------

  /** `name="value" name="value"`, written out. */
  function AttributeText(pairs: seq<(string, string)>): string
    decreases |pairs|, 0
  {
    if pairs == [] then ""
    else pairs[0].0 + ("=\"" + (pairs[0].1 + ("\"" + Following(pairs[1..]))))
  }

  function Following(pairs: seq<(string, string)>): string
    decreases |pairs|, 1
  {
    if pairs == [] then "" else " " + AttributeText(pairs)
  }

  /** The last value given to a name, empty if there is none. */
  function LastValue(pairs: seq<(string, string)>, name: string): string {
    if pairs == [] then ""
    else if pairs[|pairs| - 1].0 == name then pairs[|pairs| - 1].1
    else LastValue(pairs[..|pairs| - 1], name)
  }

  /** A name is a run of word characters; a value holds neither quote nor bracket. */
  predicate Writable(pairs: seq<(string, string)>) {
    forall i :: 0 <= i < |pairs| ==>
      && pairs[i].0 != "" && (forall c :: c in pairs[i].0 ==> IsWordChar(c))
      && '"' !in pairs[i].1 && ']' !in pairs[i].1
  }

  /** Word characters by code: the digits, the letters and the underscore. */
  lemma WordCharsAre(c: char)
    ensures IsWordChar(c) <==>
            48 <= c as int <= 57 || 65 <= c as int <= 90 || c as int == 95 || 97 <= c as int <= 122
  {
  }

  lemma WordCharsApart(c: char)
    requires IsWordChar(c)
    ensures c != '"' && c != ']' && c != '=' && !IsSpace(c)
  {
  }

  function MapOf(pairs: seq<(string, string)>): map<string, string> {
    if pairs == [] then map[] else map[pairs[0].0 := pairs[0].1] + MapOf(pairs[1..])
  }

  lemma {:induction false} MapOfSnoc(pairs: seq<(string, string)>, last: (string, string))
    ensures MapOf(pairs + [last]) == MapOf(pairs)[last.0 := last.1]
  {
    if pairs == [] {
      assert pairs + [last] == [last];
      assert MapOf([last]) == map[last.0 := last.1] + MapOf([]);
    } else {
      assert (pairs + [last])[1..] == pairs[1..] + [last];
      MapOfSnoc(pairs[1..], last);
    }
  }

  lemma {:induction false} LastWins(pairs: seq<(string, string)>, name: string)
    ensures Lookup(MapOf(pairs), name) == LastValue(pairs, name)
  {
    if pairs != [] {
      LastWins(pairs[..|pairs| - 1], name);
      MapOfSnoc(pairs[..|pairs| - 1], pairs[|pairs| - 1]);
      assert pairs[..|pairs| - 1] + [pairs[|pairs| - 1]] == pairs;
    }
  }

  lemma {:induction false} AttributesRead(s: string, at: nat, pairs: seq<(string, string)>)
    requires Writable(pairs) && at <= |s| && s[at..] == AttributeText(pairs)
    ensures Attrs(s, at) == MapOf(pairs)
    decreases |pairs|, 0
  {
    hide Exec, Attrs, MatchAt, IsWordChar;
    if pairs == [] {
      assert at == |s|;
      ExecAtEnd(s);
      AttrsStep(s, at);
    } else {
      var (name, value) := pairs[0];
      assert forall k :: 0 <= k < |name| ==> name[k] in name;
      MatchIs(s, at, name, value, Following(pairs[1..]));
      AttrsStep(s, at);
      PieceOf(name, value, Following(pairs[1..]));
      var next := at + |name| + |value| + 3;
      assert s[next..] == s[at..][|name| + |value| + 3..] == Following(pairs[1..]);
      FollowingRead(s, next, pairs[1..]);
    }
  }

  lemma {:induction false} FollowingRead(s: string, at: nat, pairs: seq<(string, string)>)
    requires Writable(pairs) && at <= |s| && s[at..] == Following(pairs)
    ensures Attrs(s, at) == MapOf(pairs)
    decreases |pairs|, 1
  {
    hide Exec, Attrs, MatchAt;
    if pairs == [] {
      assert at == |s|;
      ExecAtEnd(s);
      AttrsStep(s, at);
    } else {
      assert s[at] == s[at..][0] == ' ';
      NoMatchAtSpace(s, at);
      ExecSkips(s, at, at + 1);
      assert s[at + 1..] == s[at..][1..];
      AttributesRead(s, at + 1, pairs);
    }
  }

  lemma {:induction false} AttributeTextFacts(pairs: seq<(string, string)>)
    requires Writable(pairs)
    ensures ']' !in AttributeText(pairs) && ']' !in Following(pairs)
    ensures pairs != [] ==> AttributeText(pairs) != "" && !IsSpace(AttributeText(pairs)[0])
  {
    hide IsSpace, IsWordChar;
    if pairs != [] {
      AttributeTextFacts(pairs[1..]);
      forall c | c in pairs[0].0
        ensures c != ']' && !IsSpace(c)
      {
        WordCharsApart(c);
      }
      assert pairs[0].0[0] in pairs[0].0;
    }
  }

  predicate AllSpace(gap: string) {
    gap != "" && forall k :: 0 <= k < |gap| ==> IsSpace(gap[k])
  }

  /** `[@`, white space, the attributes, `]` */
  function Written(gap: string, pairs: seq<(string, string)>): string {
    "[@" + (gap + (AttributeText(pairs) + "]"))
  }

  /** The member link of the last id and the last label when both are there and not empty. */
  function Published(gap: string, pairs: seq<(string, string)>): string {
    var id, caption := LastValue(pairs, "id"), LastValue(pairs, "label");
    if id != "" && caption != "" then "[@" + caption + "](mention://member/" + id + ")" else Written(gap, pairs)
  }

  lemma {:induction false} SkipToEnd(s: string, from: nat)
    requires from <= |s| && forall k :: from <= k < |s| ==> IsSpace(s[k])
    ensures SkipSpaces(s, from) == |s|
    decreases |s| - from
  {
    if from < |s| {
      SkipToEnd(s, from + 1);
    }
  }

  /** The segment's attributes are those written, and the segment ends at its own bracket. */
  lemma SegmentRead(gap: string, pairs: seq<(string, string)>)
    requires AllSpace(gap) && Writable(pairs)
    ensures var segment := Written(gap, pairs);
            && OpenerAt(segment, 0) && ']' in segment && CloseAt(segment) == |segment| - 1
            && Attrs(AttrString(segment), 0) == MapOf(pairs)
  {
    hide Attrs, AttributeText, Writable;
    var q := AttributeText(pairs);
    var inner := "[@" + gap + q;
    AttributeTextFacts(pairs);
    BracketIsNoSpace();
    hide IsSpace;
    assert Written(gap, pairs) == inner + "]";
    assert forall k :: 2 <= k < 2 + |gap| ==> inner[k] == gap[k - 2];
    assert ']' !in inner;
    SegmentEnds(inner);
    if pairs == [] {
      assert q == "" by { NothingWritten(); }
      SkipToEnd(inner, 2);
    } else {
      assert inner[2 + |gap|] == q[0];
      SkipSpacesIs(inner, 2, 2 + |gap|);
    }
    assert inner[2 + |gap|..] == q && q[0..] == q;
    AttributesRead(q, 0, pairs);
  }

  lemma NothingWritten()
    ensures AttributeText([]) == ""
  {
  }

  lemma SegmentEnds(inner: string)
    requires ']' !in inner && |inner| >= 2
    ensures ']' in inner + "]" && CloseAt(inner + "]") == |inner| && (inner + "]")[..|inner|] == inner
  {
    var segment := inner + "]";
    assert segment[|inner|] == ']';
    assert forall k :: 0 <= k < |inner| ==> segment[k] == inner[k];
  }

  lemma BracketIsNoSpace()
    ensures !IsSpace(']')
  {
  }

  /** A shortcode with any attributes, in any order, in front of any text. */
  lemma WrittenBecomesPublished(gap: string, pairs: seq<(string, string)>, rest: string)
    requires AllSpace(gap) && Writable(pairs)
    ensures Rewrite(Written(gap, pairs) + rest) == Published(gap, pairs) + Rewrite(rest)
  {
    SegmentRead(gap, pairs);
    hide Rewrite, Convert, Written, Published, AllSpace, Writable;
    RewriteSegment(Written(gap, pairs), rest);
    SegmentConverts(gap, pairs);
  }

  lemma SegmentConverts(gap: string, pairs: seq<(string, string)>)
    requires AllSpace(gap) && Writable(pairs)
    ensures |Written(gap, pairs)| >= 3 && Convert(Written(gap, pairs)) == Published(gap, pairs)
  {
    hide Attrs, MapOf, LastValue, Lookup, AttrString, CloseAt, Written, AllSpace, Writable;
    SegmentRead(gap, pairs);
    LastWins(pairs, "id");
    LastWins(pairs, "label");
    var id, caption := LastValue(pairs, "id"), LastValue(pairs, "label");
    assert Link(id, caption) == "[@" + caption + "](mention://member/" + id + ")";
  }

  function AllWritten(gaps: seq<string>, codes: seq<seq<(string, string)>>): (r: seq<string>)
    requires |gaps| == |codes|
    ensures |r| == |codes|
  {
    seq(|codes|, i requires 0 <= i < |codes| => Written(gaps[i], codes[i]))
  }

  function AllPublished(gaps: seq<string>, codes: seq<seq<(string, string)>>): (r: seq<string>)
    requires |gaps| == |codes|
    ensures |r| == |codes|
  {
    seq(|codes|, i requires 0 <= i < |codes| => Published(gaps[i], codes[i]))
  }

  /** A whole document: text without opening brackets around any number of shortcodes. */
  ghost predicate Document(lits: seq<string>, gaps: seq<string>, codes: seq<seq<(string, string)>>) {
    && |lits| == |codes| + 1 == |gaps| + 1
    && (forall i :: 0 <= i < |lits| ==> '[' !in lits[i])
    && (forall i :: 0 <= i < |codes| ==> AllSpace(gaps[i]) && Writable(codes[i]))
  }

  lemma PlainKept(lit: string, rest: string)
    requires '[' !in lit
    ensures Rewrite(lit + rest) == lit + Rewrite(rest)
  {
    var t := lit + rest;
    assert forall i :: 0 <= i < |lit| ==> t[i] == lit[i];
    RewritePlain(lit, rest);
  }

  /** The rewrite of a document keeps the text and replaces each shortcode as published. */
  lemma {:induction false} DocumentRewritten(lits: seq<string>, gaps: seq<string>, codes: seq<seq<(string, string)>>)
    requires Document(lits, gaps, codes)
    ensures Rewrite(Weave(lits, AllWritten(gaps, codes))) == Weave(lits, AllPublished(gaps, codes))
    decreases |codes|
  {
    hide Rewrite, Written, Published, AllSpace, Writable;
    if codes == [] {
      PlainKept(lits[0], "");
      RewriteEmpty();
      assert lits[0] + "" == lits[0];
    } else {
      DocumentRewritten(lits[1..], gaps[1..], codes[1..]);
      var rest := Weave(lits[1..], AllWritten(gaps[1..], codes[1..]));
      assert AllWritten(gaps, codes)[1..] == AllWritten(gaps[1..], codes[1..]);
      assert AllPublished(gaps, codes)[1..] == AllPublished(gaps[1..], codes[1..]);
      assert lits[0] + Written(gaps[0], codes[0]) + rest == lits[0] + (Written(gaps[0], codes[0]) + rest);
      PlainKept(lits[0], Written(gaps[0], codes[0]) + rest);
      WrittenBecomesPublished(gaps[0], codes[0], rest);
    }
  }

  /** The exported function on a document: as soon as some `[@` is followed by a space, every shortcode is
      published; otherwise nothing changes. */
  lemma DocumentPublished(lits: seq<string>, gaps: seq<string>, codes: seq<seq<(string, string)>>)
    requires Document(lits, gaps, codes)
    ensures var t := Weave(lits, AllWritten(gaps, codes));
            if exists k :: ReadsAt(t, "[@ ", k)
            then Preprocess(t) == Weave(lits, AllPublished(gaps, codes))
            else Preprocess(t) == t
  {
    hide Rewrite, Preprocess, Weave;
    var t := Weave(lits, AllWritten(gaps, codes));
    if k :| ReadsAt(t, "[@ ", k) {
      OpenerMeansRewrite(t, k);
      DocumentRewritten(lits, gaps, codes);
    } else {
      OnlyOpenersChange(t);
    }
  }

  predicate ReadsAt(t: string, part: string, k: nat) {
    k + |part| <= |t| && t[k..k + |part|] == part
  }

  /** A text with `[@` and a space anywhere in it is rewritten. */
  lemma OpenerMeansRewrite(t: string, k: nat)
    requires ReadsAt(t, "[@ ", k)
    ensures Preprocess(t) == Rewrite(t)
  {
    assert t[k] == t[k..k + 3][0] && t[k + 1] == t[k..k + 3][1] && t[k + 2] == t[k..k + 3][2];
    assert SpaceOpenerAt(t, k);
  }

  /** Any other text is returned as it is. */
  lemma OnlyOpenersChange(t: string)
    ensures Preprocess(t) != t ==> exists k :: ReadsAt(t, "[@ ", k)
  {
    hide Rewrite;
    if Preprocess(t) != t {
      var i :| 0 <= i < |t| && SpaceOpenerAt(t, i);
      assert ReadsAt(t, "[@ ", i);
    }
  }

  /** What the two-attribute form of the old editor turns into. */
  lemma LegacyShortcodePublished(id: string, caption: string, rest: string)
    requires id != "" && '"' !in id && ']' !in id && caption != "" && '"' !in caption && ']' !in caption
    ensures Preprocess("[@ id=\"" + id + "\" label=\"" + caption + "\"]" + rest)
         == "[@" + caption + "](mention://member/" + id + ")" + Rewrite(rest)
  {
    hide Rewrite, Preprocess;
    var pairs := [("id", id), ("label", caption)];
    assert IsWordChar('i') && IsWordChar('d') && IsWordChar('l') && IsWordChar('a') && IsWordChar('b')
        && IsWordChar('e');
    WrittenBecomesPublished(" ", pairs, rest);
    TwoPairs(id, caption);
    hide AttributeText, LastValue;
    var segment := "[@ id=\"" + id + "\" label=\"" + caption + "\"]";
    assert Written(" ", pairs) == segment;
    assert (segment + rest)[0..3] == "[@ ";
    OpenerMeansRewrite(segment + rest, 0);
  }

  lemma TwoPairs(id: string, caption: string)
    ensures var pairs := [("id", id), ("label", caption)];
            && AttributeText(pairs) == "id=\"" + id + "\" label=\"" + caption + "\""
            && LastValue(pairs, "id") == id && LastValue(pairs, "label") == caption
  {
    var pairs := [("id", id), ("label", caption)];
    assert pairs[1..] == [("label", caption)] && pairs[..1] == [("id", id)];
    assert AttributeText([("label", caption)]) == "label" + ("=\"" + (caption + ("\"" + "")));
    assert AttributeText(pairs) == "id" + ("=\"" + (id + ("\"" + (" " + AttributeText([("label", caption)])))));
  }
}
