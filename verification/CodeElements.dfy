/** The elements that escaped code is stored in (shieldFencedCodeBlocks and
    shieldInlineCodeSpans in parser.go), as the reader of Html.dfy reads them. */
module CodeElements {
  import opened Html
  import opened SanitizedText
  import opened Sanitizer
  import opened Text
  import CodeSpans
  import Fences
  import GeneratedText
  import Placeholders

  // ---- The elements are written like atoms ----

  function CodeTag(lang: string): OpenTag {
    OpenTag("code", if lang == "" then [] else [Attr("class", "language-" + lang)])
  }

  function BlockAtoms(lang: string, code: string): seq<Atom> {
    [Open(OpenTag("pre", [])), Open(CodeTag(lang))] + Chars(code) + [Close("code"), Close("pre")]
  }

  function SpanAtoms(code: string): seq<Atom> {
    [Open(CodeTag(""))] + Chars(code) + [Close("code")]
  }

  lemma PlainConcat(a: string, b: string)
    ensures Placeholders.Plain(a + b) == Placeholders.Plain(a) + Placeholders.Plain(b)
  {
  }

  /** The two copies of escapeHTML agree on text without tokens. */
  lemma {:induction false} EscapesAgree(s: string)
    ensures Placeholders.EscapeHtml(Placeholders.Plain(s)) == Placeholders.Plain(EscapeText(s))
  {
    if s != "" {
      var c, rest := s[0], s[1..];
      EscapesAgree(rest);
      Placeholders.EscapeAround([], Placeholders.Ch(c), Placeholders.Plain(rest));
      assert Placeholders.Plain(s) == [] + [Placeholders.Ch(c)] + Placeholders.Plain(rest);
      OneEscapes(c);
      EscapeCons(c, rest, s);
      PlainConcat(EscapeText([c]), EscapeText(rest));
    }
  }

  lemma OneEscapes(c: char)
    ensures Placeholders.EscapeHtml([]) == []
    ensures Placeholders.EscapeHtml([Placeholders.Ch(c)]) == Placeholders.Plain(EscapeText([c]))
  {
    var one := [Placeholders.Ch(c)];
    assert one[1..] == [] && [c][1..] == "";
  }

  lemma {:induction false} MarkupChars(s: string)
    ensures Markup(Chars(s)) == EscapeText(s)
  {
    if s != "" {
      assert Chars(s)[0] == Ch(s[0]) && Chars(s)[1..] == Chars(s[1..]);
      MarkupChars(s[1..]);
      EscapeCons(s[0], s[1..], s);
    }
  }

  lemma PreWritten()
    ensures Write(Open(OpenTag("pre", []))) == "<pre>" && Write(Close("pre")) == "</pre>"
    ensures Write(Open(CodeTag(""))) == "<code>" && Write(Close("code")) == "</code>"
  {
    assert WriteAttrs([]) == "";
  }

  lemma ClassWritten(lang: string)
    ensures WriteAttr(Attr("class", "language-" + lang)) == " class=\"language-" + EscapeText(lang) + "\""
  {
    EscapeLanguage(lang);
    var x := EscapeText(lang);
    hide EscapeText;
    assert " " + "class" + "=\"" == " class=\"" && " class=\"" + "language-" == " class=\"language-";
    Inside(" class=\"", "language-", x, "\"");
  }

  lemma Inside(a: string, b: string, x: string, c: string)
    ensures a + (b + x) + c == (a + b) + x + c
  {
  }

  lemma Outside(a: string, b: string, x: string, c: string, d: string)
    ensures a + (b + x + c) + d == (a + b) + x + (c + d)
  {
  }

  lemma CodeWritten(lang: string)
    requires lang != ""
    ensures Write(Open(CodeTag(lang))) == "<code class=\"language-" + EscapeText(lang) + "\">"
  {
    var a := Attr("class", "language-" + lang);
    ClassWritten(lang);
    OneAttr(a);
    var x := EscapeText(lang);
    hide WriteAttr, WriteAttrs, EscapeText;
    Outside("<code", " class=\"language-", x, "\"", ">");
    assert "<" + "code" == "<code" && "<code" + " class=\"language-" == "<code class=\"language-";
    assert "\"" + ">" == "\">";
  }

  lemma OneAttr(a: Attr)
    ensures WriteAttrs([a]) == WriteAttr(a)
  {
    assert [a][1..] == [] && WriteAttrs([]) == "";
    assert WriteAttr(a) + "" == WriteAttr(a);
  }

  lemma EscapeLanguage(lang: string)
    ensures EscapeText("language-" + lang) == "language-" + EscapeText(lang)
  {
    EscapePlain("language-", lang);
  }

  lemma {:induction false} EscapePlain(a: string, b: string)
    requires '&' !in a && '<' !in a && '>' !in a
    ensures EscapeText(a + b) == a + EscapeText(b)
  {
    if a == "" {
      assert a + b == b;
    } else {
      assert (a + b)[1..] == a[1..] + b;
      EscapePlain(a[1..], b);
    }
  }

  lemma AroundWritten(before: seq<Atom>, code: string, after: seq<Atom>)
    ensures Markup(before + Chars(code) + after) == Markup(before) + EscapeText(code) + Markup(after)
  {
    MarkupConcat(before + Chars(code), after);
    MarkupConcat(before, Chars(code));
    MarkupChars(code);
  }

  lemma TwoWritten(a: Atom, b: Atom)
    ensures Markup([a, b]) == Write(a) + Write(b)
  {
    MarkupConcat([a], [b]);
    MarkupOne(a);
    MarkupOne(b);
    assert [a] + [b] == [a, b];
  }

  lemma ThreePlain(a: string, b: string, c: string)
    ensures Placeholders.Plain(a + b + c) == Placeholders.Plain(a) + Placeholders.Plain(b) + Placeholders.Plain(c)
  {
    PlainConcat(a + b, c);
    PlainConcat(a, b);
  }

  /** The element of a block is written like these atoms. */
  lemma BlockIsWritten(b: Fences.Fenced)
    ensures Fences.HtmlBlock(b)
         == Placeholders.Plain(Markup(BlockAtoms(Fences.Language(b.header), Fences.CodeBody(b.code))))
  {
    var lang, code := Fences.Language(b.header), Fences.CodeBody(b.code);
    EscapesAgree(lang);
    EscapesAgree(code);
    BlockWritten(lang, code);
    hide Fences.Language, Fences.CodeBody, Placeholders.EscapeHtml, EscapeText, Markup, Placeholders.Plain;
    var body, open := EscapeText(code), if lang == "" then "" else LANGUAGE + EscapeText(lang) + "\"";
    ThreePlain("<pre><code" + open + ">", body, "</code></pre>");
    ThreePlain("<pre><code", open, ">");
    if lang == "" {
      NothingPlain();
      assert Placeholders.Plain("<pre><code") + [] == Placeholders.Plain("<pre><code");
    } else {
      ThreePlain(LANGUAGE, EscapeText(lang), "\"");
    }
  }

  const LANGUAGE := " class=\"language-"

  lemma NothingPlain()
    ensures Placeholders.Plain("") == []
  {
  }

  lemma BlockWritten(lang: string, code: string)
    ensures Markup(BlockAtoms(lang, code))
         == "<pre><code" + (if lang == "" then "" else LANGUAGE + EscapeText(lang) + "\"") + ">"
            + EscapeText(code) + "</code></pre>"
  {
    var pre := Open(OpenTag("pre", []));
    AroundWritten([pre, Open(CodeTag(lang))], code, [Close("code"), Close("pre")]);
    TwoWritten(pre, Open(CodeTag(lang)));
    TwoWritten(Close("code"), Close("pre"));
    PreWritten();
    OpensWritten(lang);
    hide EscapeText, Markup, Write, Chars;
    assert "</code>" + "</pre>" == "</code></pre>";
  }

  lemma OpensWritten(lang: string)
    ensures "<pre>" + Write(Open(CodeTag(lang)))
         == "<pre><code" + (if lang == "" then "" else LANGUAGE + EscapeText(lang) + "\"") + ">"
  {
    if lang == "" {
      PreWritten();
      assert "<pre>" + "<code>" == "<pre><code" + "" + ">";
    } else {
      CodeWritten(lang);
      GlueOpens(EscapeText(lang));
    }
  }

  lemma GlueOpens(x: string)
    ensures "<pre>" + ("<code class=\"language-" + x + "\">") == "<pre><code" + (LANGUAGE + x + "\"") + ">"
  {
    Outside("<pre><code", LANGUAGE, x, "\"", ">");
    OpensLiterals();
    hide LANGUAGE;
    Outside("<pre>", "<code class=\"language-", x, "\">", "");
  }

  lemma OpensLiterals()
    ensures "<pre><code" + LANGUAGE == "<pre>" + "<code class=\"language-" && "\"" + ">" == "\">"
  {
  }

  /** The element of a span without tokens is written like these atoms. */
  lemma SpanIsWritten(s: Placeholders.Syms, sp: CodeSpans.Span, code: string)
    requires sp.start + sp.ticks <= sp.close <= |s|
    requires CodeSpans.Strip(s[sp.start + sp.ticks..sp.close]) == Placeholders.Plain(code)
    ensures CodeSpans.CodeHtml(s, sp) == Placeholders.Plain(Markup(SpanAtoms(code)))
  {
    AroundWritten([Open(CodeTag(""))], code, [Close("code")]);
    MarkupOne(Open(CodeTag("")));
    MarkupOne(Close("code"));
    PreWritten();
    EscapesAgree(code);
    hide EscapeText, Markup, Write, Chars, Placeholders.EscapeHtml, CodeSpans.Strip;
    ThreePlain("<code>", EscapeText(code), "</code>");
  }

  // ---- And the reader finds the code in them ----

  function BlockTokens(lang: string, code: string): seq<Token> {
    [StartTag("pre", []), StartTag("code", CodeTag(lang).attrs)] + Html.Texts(code) + [EndTag("code"), EndTag("pre")]
  }

  lemma TwoSpelled(a: Atom, b: Atom)
    ensures Spelled([a, b]) == [SpellOne(a), SpellOne(b)]
  {
    OneSpelled(a);
    OneSpelled(b);
    GeneratedText.SpelledConcat([a], [b]);
    assert [a] + [b] == [a, b];
  }

  lemma BlockSpelled(lang: string, code: string)
    ensures Spelled(BlockAtoms(lang, code)) == BlockTokens(lang, code)
  {
    var opens, closes := [Open(OpenTag("pre", [])), Open(CodeTag(lang))], [Close("code"), Close("pre")];
    GeneratedText.SpelledConcat(opens + Chars(code), closes);
    GeneratedText.SpelledConcat(opens, Chars(code));
    SpelledChars(code);
    TwoSpelled(opens[0], opens[1]);
    TwoSpelled(closes[0], closes[1]);
  }

  lemma TwoShaped(a: Atom, b: Atom)
    requires ShapedHead(a, [b]) && ShapedHead(b, [])
    ensures Shaped([a, b])
  {
    assert [a, b][1..] == [b] && [b][1..] == [];
  }

  lemma BlockShaped(lang: string, code: string)
    ensures Shaped(BlockAtoms(lang, code))
  {
    var opens, closes := [Open(OpenTag("pre", [])), Open(CodeTag(lang))], [Close("code"), Close("pre")];
    TwoShaped(opens[0], opens[1]);
    TwoShaped(closes[0], closes[1]);
    ShapedChars(code);
    ShapedConcat(opens, Chars(code));
    ShapedConcat(opens + Chars(code), closes);
  }

  lemma BlockSafeIff(lang: string, code: string)
    ensures TagsSafe(BlockAtoms(lang, code)) <==> '"' !in lang
  {
    var atoms := BlockAtoms(lang, code);
    var attrs := CodeTag(lang).attrs;
    assert atoms[0] == Open(OpenTag("pre", [])) && atoms[1] == Open(CodeTag(lang));
    if lang != "" {
      var prefix := "language-";
      assert attrs[0].val == prefix + lang && '"' !in prefix;
      assert '"' in prefix + lang <==> '"' in lang;
      assert attrs[1..] == [] && OnceEach(attrs[1..], {} + {"class"});
      assert QuoteFree(attrs) <==> '"' !in attrs[0].val;
    }
    assert AttrsSafe(attrs) <==> '"' !in lang;
    assert forall i :: 2 <= i < |atoms| ==> !atoms[i].Open?;
  }

  /** Main result: the reader finds the block's code between its own tags, character by character,
      and its language in the class, if and only if the language holds no quote. */
  lemma BlockReadsIff(b: Fences.Fenced, ents: Entities) returns (text: string)
    requires Sane(ents)
    ensures Fences.HtmlBlock(b) == Placeholders.Plain(text)
    ensures Lex(text, ents) == BlockTokens(Fences.Language(b.header), Fences.CodeBody(b.code))
       <==> '"' !in Fences.Language(b.header)
  {
    var lang, code := Fences.Language(b.header), Fences.CodeBody(b.code);
    text := Markup(BlockAtoms(lang, code));
    BlockIsWritten(b);
    BlockSpelled(lang, code);
    BlockShaped(lang, code);
    BlockSafeIff(lang, code);
    NoRawSafe(BlockAtoms(lang, code), ents);
    hide Markup, Spelled, Shaped, TagsSafe, Fences.HtmlBlock;
    LexesBackIff(BlockAtoms(lang, code), ents);
  }

  lemma {:induction false} TextsMean(s: string, st: Stack)
    ensures Meaning(Html.Texts(s), st) == Seen(s, st) && Final(Html.Texts(s), st) == st
  {
    if s != "" {
      assert Html.Texts(s)[1..] == Html.Texts(s[1..]);
      TextsMean(s[1..], st);
      assert Seen(s, st) == Seen([s[0]], st) + Seen(s[1..], st);
    }
  }

  /** Main result: sanitising the element leaves the code under its two tags, the language in the
      class, and nothing open. */
  lemma BlockSurvives(lang: string, code: string)
    ensures Meaning(BlockTokens(lang, code), []) == Seen(code, [OpenTag("pre", []), CodeTag(lang)])
    ensures Final(BlockTokens(lang, code), []) == []
  {
    var opens, closes := [StartTag("pre", []), StartTag("code", CodeTag(lang).attrs)], [EndTag("code"), EndTag("pre")];
    var st := [OpenTag("pre", []), CodeTag(lang)];
    OpensSurvive(lang);
    ClosesSurvive(lang);
    TextsMean(code, st);
    MeaningConcat(opens + Html.Texts(code), closes, []);
    MeaningConcat(opens, Html.Texts(code), []);
  }

  lemma OpensSurvive(lang: string)
    ensures var opens := [StartTag("pre", []), StartTag("code", CodeTag(lang).attrs)];
      Meaning(opens, []) == [] && Final(opens, []) == [OpenTag("pre", []), CodeTag(lang)]
  {
    var pre := OpenTag("pre", []);
    TelegramTagMoves("pre", [], []);
    TelegramTagMoves("code", CodeTag(lang).attrs, [pre]);
    MeaningTwo(StartTag("pre", []), StartTag("code", CodeTag(lang).attrs), []);
    assert [] + [pre] == [pre] && [pre] + [CodeTag(lang)] == [pre, CodeTag(lang)];
    NothingSeen([]);
    NothingSeen([pre]);
  }

  lemma ClosesSurvive(lang: string)
    ensures var closes, st := [EndTag("code"), EndTag("pre")], [OpenTag("pre", []), CodeTag(lang)];
      Meaning(closes, st) == [] && Final(closes, st) == []
  {
    var pre, st := OpenTag("pre", []), [OpenTag("pre", []), CodeTag(lang)];
    TelegramTagMoves("pre", [], []);
    TelegramTagMoves("code", CodeTag(lang).attrs, [pre]);
    MeaningTwo(EndTag("code"), EndTag("pre"), st);
    assert [] + [pre] == [pre] && [pre] + [CodeTag(lang)] == st;
    NothingSeen(st);
    NothingSeen([pre]);
  }

  /** Main result: the reader finds the stripped content of a span between code tags. */
  lemma SpanReads(s: Placeholders.Syms, sp: CodeSpans.Span, code: string, ents: Entities) returns (text: string)
    requires Sane(ents) && sp.start + sp.ticks <= sp.close <= |s|
    requires CodeSpans.IsStripped(s[sp.start + sp.ticks..sp.close], Placeholders.Plain(code))
    ensures CodeSpans.CodeHtml(s, sp) == Placeholders.Plain(text)
    ensures Lex(text, ents) == [StartTag("code", [])] + Html.Texts(code) + [EndTag("code")]
  {
    CodeSpans.StripIff(s[sp.start + sp.ticks..sp.close], Placeholders.Plain(code));
    text := Markup(SpanAtoms(code));
    SpanIsWritten(s, sp, code);
    SpanLexes(code, ents);
  }

  lemma SpanLexes(code: string, ents: Entities)
    requires Sane(ents)
    ensures Lex(Markup(SpanAtoms(code)), ents) == [StartTag("code", [])] + Html.Texts(code) + [EndTag("code")]
  {
    var atoms := SpanAtoms(code);
    GeneratedText.GeneratedReads(atoms, ents);
    GeneratedText.SpelledConcat([atoms[0]] + Chars(code), [Close("code")]);
    GeneratedText.SpelledConcat([atoms[0]], Chars(code));
    SpelledChars(code);
    OneSpelled(atoms[0]);
    OneSpelled(Close("code"));
  }

  lemma OneSpelled(a: Atom)
    ensures Spelled([a]) == [SpellOne(a)]
  {
    assert [a][1..] == [];
  }
}
