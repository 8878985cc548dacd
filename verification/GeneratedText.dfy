/** SplitHTMLChunks (formatters.go) with the reader of Html.dfy as its tokenizer: what every
    text shows, and texts that the reader lexes piece by piece. */
module GeneratedText {
  import opened ChunkLengths
  import opened Chunks
  import opened Html
  import opened Results
  import opened SanitizedText
  import opened Sanitizer
  import opened Splitter
  import opened Text

  function Lexer(ents: Entities): string -> seq<Token> {
    s => Lex(s, ents)
  }

  // ---- No token shows more than it was written with ----

  lemma {:induction false} LowerLen(s: string)
    ensures Utf16Len(Lower(s)) == Utf16Len(s)
  {
    if s != "" {
      assert Lower(s)[1..] == Lower(s[1..]);
      LowerLen(s[1..]);
    }
  }

  lemma UnitsFrom(s: string, k: nat)
    requires k <= |s|
    ensures Utf16Len(s) == Utf16Len(s[..k]) + Utf16Len(s[k..]) && Utf16Len(s[..k]) >= k
  {
    assert s == s[..k] + s[k..];
    Utf16LenConcat(s[..k], s[k..]);
    Utf16LenBounds(s[..k]);
  }

  lemma AfterGtLen(s: string, rest: string)
    requires AfterGt(s, rest)
    ensures Utf16Len(rest) + 1 <= Utf16Len(s)
  {
    UnitsFrom(s, |s| - |rest|);
  }

  /** A self-closing tag has a '/' before its '>'. */
  lemma SlashBeforeEnd(s: string, ents: Entities)
    requires ReadAttrs(s, ents).Some? && ReadAttrs(s, ents).value.selfClosing
    ensures Utf16Len(ReadAttrs(s, ents).value.rest) + 2 <= Utf16Len(s)
  {
    AttrsEndAtGt(s, ents);
    NotAtOnce(s, ents);
    hide ReadAttrs;
    TwoBefore(s, ReadAttrs(s, ents).value.rest);
  }

  lemma TwoBefore(s: string, rest: string)
    requires AfterGt(s, rest) && s[0] != '>'
    ensures Utf16Len(rest) + 2 <= Utf16Len(s)
  {
    hide Utf16Len;
    UnitsFrom(s, |s| - |rest|);
  }

  /** A tag that is just '>' is not self-closing. */
  lemma NotAtOnce(s: string, ents: Entities)
    requires ReadAttrs(s, ents).Some? && ReadAttrs(s, ents).value.selfClosing
    ensures s[0] != '>'
  {
  }

  lemma {:induction false} ShownTagLen(before: string, name: string, after: string)
    requires NameTail(before) && NameTail(after)
    ensures Utf16Len("<" + before + name + (after + ">")) == 2 + |before| + Utf16Len(name) + |after|
  {
    NarrowUnits("<" + before);
    NarrowUnits(after + ">");
    Utf16LenConcat("<" + before, name);
    Utf16LenConcat("<" + before + name, after + ">");
  }

  /** A tag shows at most its name and its brackets. */
  lemma TagShownLen(tok: Token)
    requires tok.StartTag? || tok.EndTag? || tok.SelfClosing?
    ensures Utf16Len(Shown(tok)) <= 2 + (if tok.StartTag? then 0 else 1) + Utf16Len(tok.name)
  {
    match tok
    case StartTag(n, _) =>
      ShownTagLen("", n, "");
      assert "<" + n + ">" == "<" + "" + n + ("" + ">");
    case EndTag(n) =>
      ShownTagLen("/", n, "");
      assert "</" + n + ">" == "<" + "/" + n + ("" + ">");
    case SelfClosing(n) =>
      LowerLen(n);
      ShownTagLen("", Lower(n), "/");
      assert "<" + Lower(n) + "/>" == "<" + "" + Lower(n) + ("/" + ">");
  }

  lemma TagShowsNoMore(tok: Token, name: string, x: string, rest: string)
    requires tok.StartTag? || tok.EndTag? || tok.SelfClosing?
    requires tok.name == Lower(name) && Utf16Len(rest) + (if tok.SelfClosing? then 2 else 1) <= Utf16Len(x)
    ensures Utf16Len(Shown(tok)) + Utf16Len(rest) <= 1 + (if tok.EndTag? then 1 else 0) + Utf16Len(name) + Utf16Len(x)
  {
    LowerLen(name);
    TagShownLen(tok);
  }

  lemma {:induction false} StartShowsNoMore(s: string, ents: Entities)
    requires s != "" && Letter(s[0]) && ReadMarkup(s, ents).Some?
    ensures var r := ReadMarkup(s, ents).value; Utf16Len(Shown(r.0)) + Utf16Len(r.1) <= 1 + Utf16Len(s)
  {
    var name := Until(s, NameEnd);
    var x := s[|name|..];
    var r := ReadMarkup(s, ents).value;
    UnitsFrom(s, |name|);
    AttrsEndAtGt(x, ents);
    AfterGtLen(x, r.1);
    if r.0.SelfClosing? {
      SlashBeforeEnd(x, ents);
    }
    TagShowsNoMore(r.0, name, x, r.1);
  }

  lemma {:induction false} EndShowsNoMore(s: string, ents: Entities)
    requires |s| > 1 && s[0] == '/' && Letter(s[1]) && ReadMarkup(s, ents).Some?
    ensures var r := ReadMarkup(s, ents).value; Utf16Len(Shown(r.0)) + Utf16Len(r.1) <= 1 + Utf16Len(s)
  {
    var name := Until(s[1..], NameEnd);
    var x := s[1 + |name|..];
    var r := ReadMarkup(s, ents).value;
    assert s[1..][|name|..] == x;
    UnitsFrom(s[1..], |name|);
    AttrsEndAtGt(x, ents);
    AfterGtLen(x, r.1);
    TagShowsNoMore(r.0, name, x, r.1);
  }

  lemma {:induction false} MarkupShowsNoMore(s: string, ents: Entities)
    requires s != "" && Opener(s[0]) && ReadMarkup(s, ents).Some?
    ensures var r := ReadMarkup(s, ents).value; Utf16Len(Shown(r.0)) + Utf16Len(r.1) <= 1 + Utf16Len(s)
  {
    if Letter(s[0]) {
      StartShowsNoMore(s, ents);
    } else if s[0] == '/' && |s| > 1 && Letter(s[1]) {
      EndShowsNoMore(s, ents);
    } else {
      MarkupEndsAtGt(s, ents);
      AfterGtLen(s, ReadMarkup(s, ents).value.1);
    }
  }

  lemma {:induction false} ShownLenConcat(a: seq<Token>, b: seq<Token>)
    ensures ShownLen(a + b) == ShownLen(a) + ShownLen(b)
    decreases |a|
  {
    if a == [] {
      assert a + b == b;
    } else {
      assert (a + b)[1..] == a[1..] + b;
      ShownLenConcat(a[1..], b);
    }
  }

  lemma {:induction false} TextsShow(s: string)
    ensures ShownLen(Html.Texts(s)) == Utf16Len(s)
  {
    if s != "" {
      assert Html.Texts(s)[1..] == Html.Texts(s[1..]);
      TextsShow(s[1..]);
      OneUnit(s[0]);
    }
  }

  lemma OneUnit(c: char)
    ensures Utf16Len([c]) == Units(c)
  {
    assert [c][1..] == [];
  }

  lemma OneShows(tok: Token)
    ensures ShownLen([tok]) == Utf16Len(Shown(tok))
  {
    assert [tok][1..] == [];
  }

  /** No text shows more than it has. */
  lemma {:induction false} LexShowsNoMore(s: string, ents: Entities)
    requires Sane(ents)
    ensures ShownLen(Lex(s, ents)) <= Utf16Len(s)
    decreases |s|
  {
    if s == "" {
    } else if s[0] == '&' && EntityAt(s[1..], ents).Some? {
      var e := EntityAt(s[1..], ents).value;
      LexReference(s, e, ents);
      LexShowsNoMore(s[1..][e.1..], ents);
      ShownLenConcat(Html.Texts(e.0), Lex(s[1..][e.1..], ents));
      TextsShow(e.0);
      UnitsFrom(s[1..], e.1);
    } else if StartsMarkup(s) {
      LexMarkup(s, ents);
      var r := ReadMarkup(s[1..], ents);
      if r.Some? {
        MarkupShowsNoMore(s[1..], ents);
        LexShowsNoMore(r.value.1, ents);
        ShownLenConcat([r.value.0], Lex(r.value.1, ents));
        OneShows(r.value.0);
      }
    } else {
      LexPlain(s, ents);
      LexShowsNoMore(s[1..], ents);
      ShownLenConcat([TextToken([s[0]])], Lex(s[1..], ents));
      OneShows(TextToken([s[0]]));
      OneUnit(s[0]);
    }
  }

  /** Main result: every chunk of every text shows at most `limit` units. */
  lemma EveryChunkShowsWithin(text: string, limit: int, ents: Entities)
    requires Sane(ents) && limit >= 2
    ensures forall c :: c in ChunksOf(text, limit, Lexer(ents)) ==> Read(c, []).Reading?
    ensures forall c :: c in ChunksOf(text, limit, Lexer(ents)) ==> Utf16Len(SeenText(Read(c, []).seen)) <= limit
  {
    forall s ensures ShownLen(Lexer(ents)(s)) <= Utf16Len(s) {
      LexShowsNoMore(s, ents);
    }
    VisibleWithin(text, limit, Lexer(ents));
  }

  /** What the reader finds in the text of a chunk is what the chunk shows, when the names in
      it are safe. */
  lemma {:induction false} ChunkTextShows(raws: seq<seq<Token>>, c: seq<Atom>, ents: Entities)
    requires Sane(ents) && c in Kept(raws) && forall k :: 0 <= k < |raws| ==> SafeTokens(raws[k], ents)
    ensures Read(c, []).Reading? && Meaning(Lex(Markup(c), ents), []) == Read(c, []).seen
  {
    var k := KeptFrom(raws, c);
    var st := Final(Concat(raws[..k]), []);
    SafeConcat(raws[..k], ents);
    SafeFinal(Concat(raws[..k]), [], ents);
    SanitizedOnlyCleanTags(Concat(raws[..k]), []);
    TextMeansTheSame(raws[k], st, ents, Lex(Markup(c), ents));
    SanitizedReads(raws[k], st);
  }

  lemma {:induction false} SafeConcat(raws: seq<seq<Token>>, ents: Entities)
    requires forall k :: 0 <= k < |raws| ==> SafeTokens(raws[k], ents)
    ensures SafeTokens(Concat(raws), ents)
  {
    if raws != [] {
      var n := |raws| - 1;
      SafeConcat(raws[..n], ents);
      assert SafeTokens(raws[n], ents);
      var init := Concat(raws[..n]);
      assert forall i :: 0 <= i < |Concat(raws)| ==>
        Concat(raws)[i] == if i < |init| then init[i] else raws[n][i - |init|];
    }
  }

  // ---- Texts that are lexed piece by piece ----

  function SegmentOf(a: Atom): Segment {
    match a
    case Ch(c) => Segment(if Special(c) then Entity else Plain, Write(a))
    case Raw(c) => Segment(Plain, Write(a))
    case Open(_) => Segment(Tag, Write(a))
    case Close(_) => Segment(Tag, Write(a))
  }

  function Segments(atoms: seq<Atom>): seq<Segment> {
    seq(|atoms|, i requires 0 <= i < |atoms| => SegmentOf(atoms[i]))
  }

  /** An escaped character, or an allowed tag with no quote in its values and no attribute twice. */
  predicate GeneratedAtom(a: Atom) {
    match a
    case Ch(_) => true
    case Raw(_) => false
    case Open(t) => t.tag in ALLOWED_TAGS && PlainAttrs(t.attrs) && AttrsSafe(t.attrs)
    case Close(tag) => tag in ALLOWED_TAGS
  }

  predicate Generated(atoms: seq<Atom>) {
    forall i :: 0 <= i < |atoms| ==> GeneratedAtom(atoms[i])
  }

  lemma {:induction false} FlattenSegments(atoms: seq<Atom>)
    ensures Flatten(Segments(atoms)) == Markup(atoms)
  {
    hide Write;
    if atoms == [] {
      assert Markup(atoms) == "";
    } else {
      var n := |atoms| - 1;
      var init, last := atoms[..n], atoms[n];
      FlattenSegments(init);
      assert Segments(atoms)[..n] == Segments(init);
      assert atoms == init + [last];
      MarkupConcat(init, [last]);
      MarkupOne(last);
    }
  }

  lemma {:induction false} GeneratedShaped(atoms: seq<Atom>)
    requires Generated(atoms)
    ensures Shaped(atoms)
  {
    if atoms != [] {
      assert GeneratedAtom(atoms[0]);
      GeneratedShaped(atoms[1..]);
    }
  }

  lemma GeneratedReads(atoms: seq<Atom>, ents: Entities)
    requires Sane(ents) && Generated(atoms)
    ensures Lex(Markup(atoms), ents) == Spelled(atoms)
  {
    GeneratedShaped(atoms);
    assert forall i :: 0 <= i < |atoms| ==> GeneratedAtom(atoms[i]);
    NoRawSafe(atoms, ents);
    LexesBack(atoms, ents);
  }

  /** The tokens of one segment on its own. */
  function Piecewise(ents: Entities): Segment -> seq<Token> {
    (s: Segment) => Lex(s.text, ents)
  }

  lemma OnePiece(a: Atom, ents: Entities)
    requires Sane(ents) && GeneratedAtom(a)
    ensures Lex(Write(a), ents) == [SpellOne(a)]
  {
    var one := [a];
    MarkupOne(a);
    GeneratedReads(one, ents);
    assert one[1..] == [] && Spelled(one) == [SpellOne(a)] + Spelled(one[1..]);
  }

  lemma {:induction false} SpelledConcat(a: seq<Atom>, b: seq<Atom>)
    ensures Spelled(a + b) == Spelled(a) + Spelled(b)
    decreases |a|
  {
    if a == [] {
      assert a + b == b;
    } else {
      assert (a + b)[1..] == a[1..] + b;
      SpelledConcat(a[1..], b);
    }
  }

  lemma {:induction false} PiecesRead(atoms: seq<Atom>, ents: Entities)
    requires Sane(ents) && Generated(atoms)
    ensures TokensOf(Segments(atoms), Piecewise(ents)) == Spelled(atoms)
  {
    hide Write;
    hide Lex;
    if atoms != [] {
      var n := |atoms| - 1;
      var init, last := atoms[..n], atoms[n];
      PiecesRead(init, ents);
      assert Segments(atoms)[..n] == Segments(init);
      OnePiece(last, ents);
      SpelledLast(init, last, atoms);
    }
  }

  lemma SpelledLast(init: seq<Atom>, last: Atom, atoms: seq<Atom>)
    requires atoms == init + [last]
    ensures Spelled(atoms) == Spelled(init) + [SpellOne(last)]
  {
    var one := [last];
    SpelledConcat(init, one);
    assert one[1..] == [] && Spelled(one) == [SpellOne(last)] + Spelled(one[1..]);
  }

  /** Every run of such a text reads as its pieces do. */
  lemma RunReads(atoms: seq<Atom>, i: nat, j: nat, ents: Entities)
    requires Sane(ents) && Generated(atoms) && i <= j <= |atoms|
    ensures Lex(Flatten(Segments(atoms)[i..j]), ents) == TokensOf(Segments(atoms)[i..j], Piecewise(ents))
  {
    var run := atoms[i..j];
    assert forall k :: 0 <= k < |run| ==> run[k] == atoms[i + k];
    assert Segments(atoms)[i..j] == Segments(run);
    FlattenSegments(run);
    GeneratedReads(run, ents);
    PiecesRead(run, ents);
  }

  /** Main result: the text of escaped characters and allowed tags is lexed piece by piece in
      all its runs. */
  lemma GeneratedLexes(atoms: seq<Atom>, ents: Entities)
    requires Sane(ents) && Generated(atoms)
    ensures Flatten(Segments(atoms)) == Markup(atoms)
    ensures LexesRuns(Lexer(ents), Piecewise(ents), Segments(atoms))
    ensures WeighsRuns(Lexer(ents), Piecewise(ents), Segments(atoms))
  {
    FlattenSegments(atoms);
    var segs := Segments(atoms);
    OnePiece(Ch('\n'), ents);
    WrittenCh('\n');
    forall i, j | 0 <= i <= j <= |segs|
      ensures Lexer(ents)(Flatten(segs[i..j])) == TokensOf(segs[i..j], Piecewise(ents))
    {
      RunReads(atoms, i, j, ents);
    }
  }

  /** The chunks of such a text show together what the text means, when it is sent whole or
      each of its paragraphs fits the limit or holds no tag or entity that can be cut. */
  lemma {:induction false} GeneratedChunksShow(atoms: seq<Atom>, limit: int, ents: Entities)
    requires Sane(ents) && Generated(atoms) && Sendable(Segments(atoms), limit)
    ensures Lex(Markup(atoms), ents) == Spelled(atoms)
    ensures var shown := Read(Concat(ChunksOf(Markup(atoms), limit, Lexer(ents))), []);
      && shown.Reading? && ShowsText(shown.seen, Markup(atoms), limit, Lexer(ents))
      && Visible(shown.seen) == Visible(Meaning(Spelled(atoms), []))
  {
    GeneratedLexes(atoms, ents);
    GeneratedReads(atoms, ents);
    ChunksKeepMeaning(Lexer(ents), Piecewise(ents), Segments(atoms), Markup(atoms), limit);
  }

  // ---- Text whose paragraphs fit, with any attributes ----

  /** No attribute value holds a blank line. */
  predicate BlankFree(attrs: seq<Attr>) {
    forall i :: 0 <= i < |attrs| ==> FirstPair(attrs[i].val) < 0
  }

  predicate TagsBlankFree(atoms: seq<Atom>) {
    forall i :: 0 <= i < |atoms| && atoms[i].Open? ==> BlankFree(atoms[i].t.attrs)
  }

  lemma {:induction false} EscapedPair(val: string, rest: string, s: string)
    requires FirstPair(val) < 0 && s == EscapeText(val) + rest && rest != "" && rest[0] != '\n'
    ensures FirstPair(s) < 0 <==> FirstPair(rest) < 0
    decreases |val|
  {
    if val == "" {
      assert s == rest;
    } else {
      var c, val' := val[0], val[1..];
      var head, more := EscapeText([c]), EscapeText(val') + rest;
      assert val == [c] + val';
      EscapeCons(c, val', val);
      assert s == head + more;
      EscapedPair(val', rest, more);
      PairStep(c, val', rest, head, more, s);
    }
  }

  lemma PairStep(c: char, val: string, rest: string, head: string, more: string, s: string)
    requires head == EscapeText([c]) && more == EscapeText(val) + rest && s == head + more
    requires rest != "" && rest[0] != '\n' && (c == '\n' ==> val == "" || val[0] != '\n')
    ensures FirstPair(s) < 0 <==> FirstPair(more) < 0
  {
    hide EscapeText;
    if c == '\n' {
      WrittenCh(c);
      EscapedStart(val, rest, more);
      assert s[1..] == more;
    } else {
      EscapedCharUnpaired(c, head);
      hide FirstPair;
      PairAfter(head, more, s);
    }
  }

  lemma EscapedCharUnpaired(c: char, head: string)
    requires c != '\n' && head == EscapeText([c])
    ensures head != "" && head[0] != '\n' && head[|head| - 1] != '\n' && FirstPair(head) < 0
  {
    WrittenCh(c);
    assert '\n' !in head;
    NoNewlineNoPair(head);
  }

  lemma EscapedStart(val: string, rest: string, more: string)
    requires more == EscapeText(val) + rest && rest != "" && rest[0] != '\n' && (val == "" || val[0] != '\n')
    ensures more != "" && more[0] != '\n'
  {
    if val == "" {
      assert more == rest;
    }
  }

  lemma AttrBlankFree(a: Attr, rest: string, s: string)
    requires PlainAttr(a) && FirstPair(a.val) < 0 && s == WriteAttr(a) + rest
    requires rest != "" && rest[0] != '\n' && FirstPair(rest) < 0
    ensures s != "" && s[0] != '\n' && FirstPair(s) < 0
  {
    KeyHoldsNoNewline(a.key);
    if a.key == "expandable" {
      Prefixed(" " + a.key, rest, s);
    } else {
      ValueBlankFree(" " + a.key + "=\"", a.val, EscapeText(a.val), rest, s);
    }
  }

  lemma ValueBlankFree(head: string, val: string, escaped: string, rest: string, s: string)
    requires head != "" && '\n' !in head && FirstPair(val) < 0 && escaped == EscapeText(val)
    requires rest != "" && FirstPair(rest) < 0 && s == head + escaped + "\"" + rest
    ensures s != "" && s[0] != '\n' && FirstPair(s) < 0
  {
    hide FirstPair;
    hide EscapeText;
    var end := "\"" + rest;
    var tail := escaped + end;
    Prefixed("\"", rest, end);
    EscapedPair(val, end, tail);
    assert s == head + tail;
    Prefixed(head, tail, s);
  }

  lemma KeyHoldsNoNewline(key: string)
    requires PlainKey(key)
    ensures '\n' !in key
  {
    assert forall i :: 0 <= i < |key| ==> !KeyEnd(key[i]);
  }

  /** Text without newlines in front. */
  lemma Prefixed(head: string, rest: string, s: string)
    requires head != "" && '\n' !in head && s == head + rest && FirstPair(rest) < 0
    ensures s != "" && s[0] != '\n' && FirstPair(s) < 0
  {
    assert head[0] in head && head[|head| - 1] in head;
    NoNewlineNoPair(head);
    PairAfter(head, rest, s);
  }

  lemma {:induction false} AttrsBlankFree(attrs: seq<Attr>, s: string)
    requires PlainAttrs(attrs) && BlankFree(attrs) && s == WriteAttrs(attrs) + ">"
    ensures s != "" && s[0] != '\n' && FirstPair(s) < 0 && s[|s| - 1] != '\n'
    decreases |attrs|
  {
    if attrs == [] {
      assert s == ">";
    } else {
      var rest := WriteAttrs(attrs[1..]) + ">";
      AttrsBlankFree(attrs[1..], rest);
      assert s == WriteAttr(attrs[0]) + rest;
      AttrBlankFree(attrs[0], rest, s);
    }
  }

  lemma AtomUnpaired(a: Atom)
    requires GeneratedAtom(a) && (a.Open? ==> BlankFree(a.t.attrs))
    ensures SegmentOf(a) == NEWLINE || Unpaired(SegmentOf(a).text)
  {
    match a
    case Ch(c) =>
      WrittenCh(c);
      if c != '\n' { EscapedCharUnpaired(c, Write(a)); }
    case Open(t) =>
      var s := WriteAttrs(t.attrs) + ">";
      AttrsBlankFree(t.attrs, s);
      AllowedHoldsNoNewline(t.tag);
      assert Write(a) == ("<" + t.tag) + s;
      Prefixed("<" + t.tag, s, Write(a));
    case Close(tag) =>
      AllowedHoldsNoNewline(tag);
      assert '\n' !in "</" + tag + ">";
      NoNewlineNoPair(Write(a));
  }

  lemma AllowedHoldsNoNewline(tag: string)
    requires tag in ALLOWED_TAGS
    ensures '\n' !in tag
  {
    AllowedChars(tag);
  }

  /** Main result: the chunks of any such text, links and other attributes included, show
      together what it means, when every paragraph fits the limit. */
  lemma FittingParagraphsShow(atoms: seq<Atom>, limit: int, ents: Entities)
    requires Sane(ents) && Generated(atoms) && TagsBlankFree(atoms) && limit >= 2
    requires WithinLimit(Paragraphs(Markup(atoms)), limit)
    ensures Lex(Markup(atoms), ents) == Spelled(atoms)
    ensures var shown := Read(Concat(ChunksOf(Markup(atoms), limit, Lexer(ents))), []);
      && shown.Reading? && ShowsText(shown.seen, Markup(atoms), limit, Lexer(ents))
      && Visible(shown.seen) == Visible(Meaning(Spelled(atoms), []))
  {
    var segs := Segments(atoms);
    forall i | 0 <= i < |segs| ensures segs[i] == NEWLINE || Unpaired(segs[i].text) {
      assert GeneratedAtom(atoms[i]);
      AtomUnpaired(atoms[i]);
    }
    FlattenSegments(atoms);
    FittingIsChunkable(segs, limit);
    GeneratedChunksShow(atoms, limit, ents);
  }

  // ---- A chunk that is too long ----

  lemma {:induction false} AnglesLex(n: nat, text: string, ents: Entities)
    requires text == seq(n, _ => '>')
    ensures Lex(text, ents) == Html.Texts(text) && Weight(Html.Texts(text)) == 4 * n
  {
    if n > 0 {
      var rest := seq(n - 1, _ => '>');
      assert text[1..] == rest;
      AnglesLex(n - 1, rest, ents);
      LexPlain(text, ents);
      assert Html.Texts(text)[1..] == Html.Texts(rest);
      AngleWeighs();
    }
  }

  lemma AngleWeighs()
    ensures WeightOf(TextToken(['>'])) == 4
  {
    WrittenCh('>');
    NarrowUnits("&gt;");
  }

  /** n '>' fit a limit of n, and their chunk has 4n units. */
  lemma EscapesGrow(n: nat, text: string, ents: Entities)
    requires text == seq(n, _ => '>')
    ensures ChunksOf(text, n, Lexer(ents)) == [Sanitized(Lex(text, ents), [])]
    ensures TextLen(Sanitized(Lex(text, ents), [])) == 4 * n
  {
    NarrowUnits(text);
    AnglesLex(n, text, ents);
    SanitizedLength(Lex(text, ents), []);
  }

  // ---- Text without markup always fits ----

  lemma {:induction false} PlainEscapes(s: string)
    requires forall i :: 0 <= i < |s| ==> !Special(s[i])
    ensures EscapeText(s) == s
  {
    if s != "" {
      PlainEscapes(s[1..]);
    }
  }

  lemma {:induction false} PlainOverhead(text: string, ents: Entities)
    requires Sane(ents) && forall i :: 0 <= i < |text| ==> !Special(text[i])
    ensures Overhead(Segments(Chars(text)), Piecewise(ents)) == 0
  {
    if text != "" {
      var n := |text| - 1;
      var c := text[n];
      PlainOverhead(text[..n], ents);
      assert Segments(Chars(text))[..n] == Segments(Chars(text[..n]));
      var last := Segments(Chars(text))[n];
      assert last == SegmentOf(Ch(c));
      OnePiece(Ch(c), ents);
      WrittenCh(c);
      OneWeighs(c);
      assert Piecewise(ents)(last) == [TextToken([c])];
    }
  }

  lemma OneWeighs(c: char)
    requires !Special(c)
    ensures Extra([TextToken([c])], [c]) == 0
  {
    var one := [TextToken([c])];
    assert one[1..] == [];
    assert Weight(one) == WeightOf(one[0]) + Weight(one[1..]) && TagWeight(one) == TagWeight(one[1..]);
    WrittenCh(c);
  }

  lemma PlainCuttable(text: string, limit: int)
    requires limit >= 2 && forall i :: 0 <= i < |text| ==> !Special(text[i])
    ensures Cuttable(Segments(Chars(text)), limit)
  {
    forall i | 0 <= i < |text| ensures CuttableSegment(Segments(Chars(text))[i], limit) {
      WrittenCh(text[i]);
      Utf16LenBounds([text[i]]);
    }
  }

  /** Main result: chunks of text without '&', '<' and '>' fit the limit. */
  lemma PlainChunksFit(text: string, limit: int, ents: Entities)
    requires Sane(ents) && limit >= 2 && forall i :: 0 <= i < |text| ==> !Special(text[i])
    ensures forall c :: c in ChunksOf(text, limit, Lexer(ents)) ==> TextLen(c) <= limit
  {
    var atoms := Chars(text);
    MarkupChars(text);
    PlainEscapes(text);
    PlainOverhead(text, ents);
    PlainCuttable(text, limit);
    CuttableIsChunkable(Segments(atoms), limit);
    GeneratedLexes(atoms, ents);
    ChunksWithin(Lexer(ents), Piecewise(ents), Segments(atoms), text, limit, limit);
  }
}
