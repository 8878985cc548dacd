/** The text of what balanceAndSanitizeWithState writes (formatters.go): when it can be read
    back, and what sanitising it a second time does. */
module SanitizedText {
  import opened Html
  import opened Results
  import opened Sanitizer
  import opened Text

  // ---- The sanitiser's atoms have the shape the reader's lemmas ask for ----

  lemma {:induction false} ShapedConcat(a: seq<Atom>, b: seq<Atom>)
    requires Shaped(a) && Shaped(b)
    ensures Shaped(a + b)
    decreases |a|
  {
    if a == [] {
      assert a + b == b;
    } else {
      assert (a + b)[1..] == a[1..] + b;
      ShapedConcat(a[1..], b);
    }
  }

  lemma {:induction false} ShapedChars(s: string)
    ensures Shaped(Chars(s))
  {
    if s != "" {
      assert Chars(s)[1..] == Chars(s[1..]);
      ShapedChars(s[1..]);
    }
  }

  /** What may follow a displayed name: nothing, or the '/' of a self-closing tag. */
  predicate NameTail(after: string) {
    after == "" || after == "/"
  }

  lemma {:induction false} ShapedName(name: string, after: string)
    requires NameTail(after)
    ensures Shaped(Raws(name) + Chars(after + ">"))
    ensures AfterRaw(Raws(name) + Chars(after + ">"))
    decreases |name|
  {
    var atoms, end := Raws(name) + Chars(after + ">"), Chars(after + ">");
    ShapedChars(after + ">");
    if name == "" {
      assert atoms == end;
      assert (after + ">")[0] == if after == "" then '>' else '/';
    } else {
      assert atoms[1..] == Raws(name[1..]) + end;
      ShapedName(name[1..], after);
    }
  }

  lemma DisplayedParts(before: string, name: string, after: string)
    ensures Displayed(before, name, after) == Chars("<" + before) + (Raws(name) + Chars(after + ">"))
  {
  }

  lemma ShapedDisplayed(before: string, name: string, after: string)
    requires NameTail(after)
    ensures Shaped(Displayed(before, name, after))
  {
    DisplayedParts(before, name, after);
    ShapedChars("<" + before);
    ShapedName(name, after);
    ShapedConcat(Chars("<" + before), Raws(name) + Chars(after + ">"));
  }

  lemma KeptKeyPlain(tag: string, key: string)
    requires KeepsAttr(tag, key)
    ensures PlainKey(key)
  {
    assert key == "href" || key == "emoji-id" || key == "class" || key == "expandable";
  }

  lemma {:induction false} CleanAttrsPlain(tag: string, attrs: seq<Attr>)
    ensures PlainAttrs(CleanAttrs(tag, attrs))
  {
    if attrs != [] {
      CleanAttrsPlain(tag, attrs[1..]);
      var key := Lower(attrs[0].key);
      if KeepsAttr(tag, key) {
        KeptKeyPlain(tag, key);
      }
    }
  }

  lemma ShapedOpen(t: OpenTag)
    requires Clean(t)
    ensures Shaped([Open(t)])
  {
    CleanAttrsPlain(t.tag, t.attrs);
  }

  lemma {:induction false} ShapedOpens(st: Stack)
    requires AllClean(st)
    ensures Shaped(Opens(st))
  {
    if st != [] {
      assert Opens(st) == [Open(st[0])] + Opens(st[1..]);
      ShapedOpen(st[0]);
      ShapedOpens(st[1..]);
      ShapedConcat([Open(st[0])], Opens(st[1..]));
    }
  }

  lemma {:induction false} ShapedCloses(st: Stack, k: nat)
    requires AllClean(st)
    ensures Shaped(ClosesDownTo(st, k))
    decreases |st|
  {
    if |st| > k {
      assert Clean(st[|st| - 1]);
      assert ClosesDownTo(st, k)[1..] == ClosesDownTo(st[..|st| - 1], k);
      ShapedCloses(st[..|st| - 1], k);
    }
  }

  lemma ShapedEmit(tok: Token, st: Stack)
    requires AllClean(st)
    ensures Shaped(Emit(tok, st)) && AllClean(Next(tok, st))
  {
    match tok
    case TextToken(data) => ShapedChars(data);
    case StartTag(name, attrs) =>
      if Lower(name) in ALLOWED_TAGS {
        CleanAttrsIdempotent(Lower(name), attrs);
        ShapedOpen(OpenTag(Lower(name), CleanAttrs(Lower(name), attrs)));
      } else {
        ShapedDisplayed("", name, "");
      }
    case EndTag(name) =>
      if Lower(name) in ALLOWED_TAGS {
        if Innermost(st, Lower(name)) >= 0 { ShapedCloses(st, Innermost(st, Lower(name))); }
      } else {
        ShapedDisplayed("/", name, "");
      }
    case SelfClosing(name) => ShapedDisplayed("", Lower(name), "/");
    case _ =>
  }

  lemma {:induction false} ShapedEmitAll(toks: seq<Token>, st: Stack)
    requires AllClean(st)
    ensures Shaped(EmitAll(toks, st)) && AllClean(Final(toks, st))
    decreases |toks|
  {
    if toks != [] {
      ShapedEmit(toks[0], st);
      ShapedEmitAll(toks[1..], Next(toks[0], st));
      ShapedConcat(Emit(toks[0], st), EmitAll(toks[1..], Next(toks[0], st)));
    }
  }

  lemma ShapedSanitized(toks: seq<Token>, st: Stack)
    requires AllClean(st)
    ensures Shaped(Sanitized(toks, st))
  {
    ShapedOpens(st);
    ShapedEmitAll(toks, st);
    ShapedCloses(Final(toks, st), 0);
    ShapedConcat(Opens(st), EmitAll(toks, st));
    ShapedConcat(Opens(st) + EmitAll(toks, st), ClosesDownTo(Final(toks, st), 0));
  }

  // ---- Safe names, token by token ----

  /** No '&' of the name starts a reference and no '<' opens markup. */
  predicate SafeName(name: string, after: string, ents: Entities) {
    name == ""
    || ((name[0] == '&' ==> EntityAt(name[1..], ents).None?)
        && (name[0] == '<' ==> name[1..] + after == "" || !Opener((name[1..] + after)[0]))
        && SafeName(name[1..], after, ents))
  }

  predicate SafeToken(tok: Token, ents: Entities) {
    match tok
    case StartTag(name, attrs) =>
      if Lower(name) in ALLOWED_TAGS then AttrsSafe(CleanAttrs(Lower(name), attrs)) else SafeName(name, "", ents)
    case EndTag(name) => Lower(name) in ALLOWED_TAGS || SafeName(name, "", ents)
    case SelfClosing(name) => SafeName(Lower(name), "/", ents)
    case _ => true
  }

  predicate SafeTokens(toks: seq<Token>, ents: Entities) {
    forall i :: 0 <= i < |toks| ==> SafeToken(toks[i], ents)
  }

  predicate SafeStack(st: Stack) {
    forall i :: 0 <= i < |st| ==> AttrsSafe(st[i].attrs)
  }

  /** A reference cannot reach beyond the end of a name. */
  lemma {:induction false} RunStops(name: string, rest: string, s: string)
    requires s == name + rest && (rest == "" || rest[0] == '&' || rest[0] == '/')
    ensures EntityRun(s) == EntityRun(name)
    decreases |name|
  {
    if name == "" {
      assert s == rest;
    } else {
      assert s[1..] == name[1..] + rest;
      RunStops(name[1..], rest, s[1..]);
    }
  }

  lemma MarkupConcat(a: seq<Atom>, b: seq<Atom>)
    ensures Markup(a + b) == Markup(a) + Markup(b)
  {
    CatConcat(a, b, Write);
  }

  lemma MarkupOne(a: Atom)
    ensures Markup([a]) == Write(a)
  {
    var one := [a];
    assert one[0] == a && one[1..] == [];
    assert Cat(one, Write) == Write(one[0]) + Cat(one[1..], Write);
    assert Write(a) + "" == Write(a);
  }

  lemma {:induction false} MarkupRaws(name: string)
    ensures Markup(Raws(name)) == name
  {
    if name != "" {
      assert Raws(name)[1..] == Raws(name[1..]);
      MarkupRaws(name[1..]);
    }
  }

  /** The text after a name begins with the '&' of "&gt;" or with '/'. */
  lemma MarkupAfterName(after: string)
    requires NameTail(after)
    ensures var x := Markup(Chars(after + ">")); x == after + "&gt;"
  {
    WrittenCh('>');
    WrittenCh('/');
    assert Chars(">")[1..] == [];
    assert Chars("/>")[1..] == Chars(">");
    assert Chars("/>")[0] == Ch('/') && Chars(">")[0] == Ch('>');
    assert "" + ">" == ">" && "/" + ">" == "/>" && "" + "&gt;" == "&gt;";
    assert Markup([]) == "";
    assert Markup(Chars(">")) == "&gt;" + "";
    assert Markup(Chars("/>")) == "/" + "&gt;";
  }

  /** One raw character of a name, in front of the rest of it. */
  lemma NameHead(c: char, name: string, after: string, rest: string, ents: Entities)
    requires NameTail(after) && rest == name + (after + "&gt;")
    ensures NameHeadSafe(Raw(c), rest, ents) <==>
      (c == '&' ==> EntityAt(name, ents).None?) && (c == '<' ==> name + after == "" || !Opener((name + after)[0]))
  {
    RunStops(name, after + "&gt;", rest);
  }

  lemma MarkupName(name: string, after: string)
    requires NameTail(after)
    ensures Markup(Raws(name) + Chars(after + ">")) == name + (after + "&gt;")
  {
    MarkupConcat(Raws(name), Chars(after + ">"));
    MarkupRaws(name);
    MarkupAfterName(after);
  }

  lemma {:induction false} NameSafeIff(name: string, after: string, ents: Entities)
    requires NameTail(after)
    ensures NamesSafe(Raws(name) + Chars(after + ">"), ents) <==> SafeName(name, after, ents)
    decreases |name|
  {
    var end := Chars(after + ">");
    if name == "" {
      assert Raws(name) + end == end;
      NoRawSafe(end, ents);
    } else {
      MarkupName(name[1..], after);
      assert (Raws(name) + end)[1..] == Raws(name[1..]) + end;
      NameSafeIff(name[1..], after, ents);
      NameHead(name[0], name[1..], after, Markup(Raws(name[1..]) + end), ents);
    }
  }

  lemma {:induction false} NoRawSafe(atoms: seq<Atom>, ents: Entities)
    requires forall i :: 0 <= i < |atoms| ==> !atoms[i].Raw?
    ensures NamesSafe(atoms, ents)
  {
    if atoms != [] {
      NoRawSafe(atoms[1..], ents);
    }
  }

  /** What follows a name does not matter for how it reads. */
  lemma {:induction false} RunOfName(a: seq<Atom>, b: seq<Atom>)
    requires Shaped(a) && AfterRaw(a)
    ensures EntityRun(Markup(a + b)) == EntityRun(Markup(a))
    ensures Markup(a) != "" && Markup(a + b) != "" && Markup(a + b)[0] == Markup(a)[0]
    decreases |a|
  {
    assert (a + b)[1..] == a[1..] + b && (a + b)[0] == a[0];
    if a[0].Raw? {
      assert Markup(a)[1..] == Markup(a[1..]) && Markup(a + b)[1..] == Markup(a[1..] + b);
      RunOfName(a[1..], b);
    } else {
      WrittenCh(a[0].c);
      assert "gt" + ";" == "gt;";
    }
  }

  lemma {:induction false} NamesSafeConcat(a: seq<Atom>, b: seq<Atom>, ents: Entities)
    requires Shaped(a)
    ensures NamesSafe(a + b, ents) <==> NamesSafe(a, ents) && NamesSafe(b, ents)
    decreases |a|
  {
    if a == [] {
      assert a + b == b;
    } else {
      assert (a + b)[1..] == a[1..] + b;
      NamesSafeConcat(a[1..], b, ents);
      if a[0].Raw? {
        RunOfName(a[1..], b);
        MarkupConcat(a[1..], b);
      }
    }
  }

  predicate Readable(atoms: seq<Atom>, ents: Entities) {
    NamesSafe(atoms, ents) && TagsSafe(atoms)
  }

  lemma ReadableConcat(a: seq<Atom>, b: seq<Atom>, ents: Entities)
    requires Shaped(a)
    ensures Readable(a + b, ents) <==> Readable(a, ents) && Readable(b, ents)
  {
    NamesSafeConcat(a, b, ents);
    TagsSafeConcat(a, b);
  }

  lemma TagsSafeConcat(a: seq<Atom>, b: seq<Atom>)
    ensures TagsSafe(a + b) <==> TagsSafe(a) && TagsSafe(b)
  {
    assert forall i :: 0 <= i < |a| ==> a[i] == (a + b)[i];
    assert forall i :: 0 <= i < |b| ==> b[i] == (a + b)[i + |a|];
  }

  lemma ReadableDisplayed(before: string, name: string, after: string, ents: Entities)
    requires NameTail(after)
    ensures Readable(Displayed(before, name, after), ents) <==> SafeName(name, after, ents)
  {
    DisplayedParts(before, name, after);
    ShapedChars("<" + before);
    NoRawSafe(Chars("<" + before), ents);
    NamesSafeConcat(Chars("<" + before), Raws(name) + Chars(after + ">"), ents);
    NameSafeIff(name, after, ents);
  }

  lemma {:induction false} ReadableCloses(st: Stack, k: nat, ents: Entities)
    ensures Readable(ClosesDownTo(st, k), ents)
    decreases |st|
  {
    if |st| > k {
      ReadableCloses(st[..|st| - 1], k, ents);
      var atoms := ClosesDownTo(st, k);
      assert atoms[1..] == ClosesDownTo(st[..|st| - 1], k);
      assert forall i :: 1 <= i < |atoms| ==> atoms[i] == atoms[1..][i - 1];
    }
  }

  lemma ReadableTag(t: OpenTag, ents: Entities)
    ensures Readable([Open(t)], ents) <==> AttrsSafe(t.attrs)
  {
    NoRawSafe([Open(t)], ents);
    assert [Open(t)][0].t == t;
  }

  lemma ReadableEmit(tok: Token, st: Stack, ents: Entities)
    ensures Readable(Emit(tok, st), ents) <==> SafeToken(tok, ents)
  {
    match tok
    case TextToken(data) => NoRawSafe(Chars(data), ents);
    case StartTag(name, attrs) =>
      if Lower(name) in ALLOWED_TAGS {
        ReadableTag(OpenTag(Lower(name), CleanAttrs(Lower(name), attrs)), ents);
      } else {
        ReadableDisplayed("", name, "", ents);
      }
    case EndTag(name) =>
      if Lower(name) in ALLOWED_TAGS {
        if Innermost(st, Lower(name)) >= 0 { ReadableCloses(st, Innermost(st, Lower(name)), ents); }
      } else {
        ReadableDisplayed("/", name, "", ents);
      }
    case SelfClosing(name) => ReadableDisplayed("", Lower(name), "/", ents);
    case _ =>
  }

  lemma {:induction false} ReadableEmitAll(toks: seq<Token>, st: Stack, ents: Entities)
    requires AllClean(st)
    ensures Readable(EmitAll(toks, st), ents) <==> SafeTokens(toks, ents)
    decreases |toks|
  {
    if toks != [] {
      ReadableEmit(toks[0], st, ents);
      ShapedEmit(toks[0], st);
      ReadableEmitAll(toks[1..], Next(toks[0], st), ents);
      ReadableConcat(Emit(toks[0], st), EmitAll(toks[1..], Next(toks[0], st)), ents);
      assert forall i :: 1 <= i < |toks| ==> toks[i] == toks[1..][i - 1];
      assert forall i :: 0 <= i < |toks| - 1 ==> toks[1..][i] == toks[i + 1];
    }
  }

  lemma ReadableSanitized(toks: seq<Token>, st: Stack, ents: Entities)
    requires AllClean(st)
    ensures Readable(Sanitized(toks, st), ents) <==> SafeStack(st) && SafeTokens(toks, ents)
  {
    var a, b, c := Opens(st), EmitAll(toks, st), ClosesDownTo(Final(toks, st), 0);
    ShapedOpens(st);
    ShapedEmitAll(toks, st);
    ShapedConcat(a, b);
    ReadableConcat(a + b, c, ents);
    ReadableConcat(a, b, ents);
    ReadableEmitAll(toks, st, ents);
    ReadableCloses(Final(toks, st), 0, ents);
    NoRawSafe(a, ents);
    assert forall i :: 0 <= i < |st| ==> a[i].t == st[i];
  }

  // ---- Main results ----

  /** The text reads back as the atoms it was written from if and only if no name holds a '<'
      that opens markup or an '&' that starts a reference, no kept attribute value holds a
      double quote, and no kept attribute occurs twice in its tag. */
  lemma TextReadsBackIff(toks: seq<Token>, st: Stack, ents: Entities)
    requires Sane(ents) && AllClean(st)
    ensures var out := Sanitized(toks, st);
      Lex(Markup(out), ents) == Spelled(out) <==> SafeStack(st) && SafeTokens(toks, ents)
  {
    ShapedSanitized(toks, st);
    ReadableSanitized(toks, st, ents);
    LexesBackIff(Sanitized(toks, st), ents);
  }

  lemma {:induction false} SpelledChars(s: string)
    ensures Spelled(Chars(s)) == Html.Texts(s)
  {
    if s != "" {
      assert Chars(s)[1..] == Chars(s[1..]);
      SpelledChars(s[1..]);
      assert Html.Texts(s) == [TextToken([s[0]])] + Html.Texts(s[1..]);
    }
  }

  lemma SpelledShown(before: string, name: string, after: string)
    ensures Spelled(Displayed(before, name, after)) == Html.Texts("<" + before + name + after + ">")
  {
    var shown := Chars("<" + before + name + after + ">");
    SpelledAlike(Displayed(before, name, after), shown);
    SpelledChars("<" + before + name + after + ">");
  }

  lemma {:induction false} SpelledAlike(a: seq<Atom>, b: seq<Atom>)
    requires |a| == |b| && forall i :: 0 <= i < |a| ==> SpellOne(a[i]) == SpellOne(b[i])
    ensures Spelled(a) == Spelled(b)
  {
    if a != [] {
      assert SpellOne(a[0]) == SpellOne(b[0]);
      SpelledAlike(a[1..], b[1..]);
    }
  }

  /** One displayed name: it reads as the characters of the tag if and only if it is safe. */
  lemma NameReadsBackIff(before: string, name: string, after: string, ents: Entities)
    requires Sane(ents) && NameTail(after)
    ensures Lex(Markup(Displayed(before, name, after)), ents) == Html.Texts("<" + before + name + after + ">")
            <==> SafeName(name, after, ents)
  {
    ShapedDisplayed(before, name, after);
    ReadableDisplayed(before, name, after, ents);
    LexesBackIff(Displayed(before, name, after), ents);
    SpelledShown(before, name, after);
  }

  lemma {:induction false} WrittenSpelled(atoms: seq<Atom>)
    ensures Written(Spelled(atoms)) == Escaped(atoms)
    ensures forall i :: 0 <= i < |Spelled(atoms)| ==> Spells(Spelled(atoms)[i])
  {
    if atoms != [] {
      WrittenSpelled(atoms[1..]);
      assert Escaped(atoms)[1..] == Escaped(atoms[1..]);
      assert Spelled(atoms)[1..] == Spelled(atoms[1..]);
      assert WrittenOne(SpellOne(atoms[0])) == Escaped(atoms)[..1];
    }
  }

  /** A tag token over the allowed names, with the kept attributes only. */
  predicate CleanToken(tok: Token) {
    match tok
    case TextToken(_) => true
    case StartTag(name, attrs) => Clean(OpenTag(name, attrs))
    case EndTag(name) => name in ALLOWED_TAGS
    case _ => false
  }

  lemma {:induction false} SpelledClean(atoms: seq<Atom>)
    requires Shaped(atoms) && forall i :: 0 <= i < |atoms| && atoms[i].Open? ==> Clean(atoms[i].t)
    ensures |Spelled(atoms)| == |atoms|
    ensures forall i :: 0 <= i < |atoms| ==> CleanToken(Spelled(atoms)[i])
  {
    if atoms != [] {
      SpelledClean(atoms[1..]);
      assert atoms[0].Open? ==> Clean(atoms[0].t);
    }
  }

  lemma AgainMeans(toks: seq<Token>, st: Stack, again: seq<Token>)
    requires AllClean(st) && again == Spelled(Sanitized(toks, st))
    ensures Meaning(again, []) == Meaning(toks, st)
    ensures Final(again, []) == [] && Sanitized(again, []) == Escaped(Sanitized(toks, st))
  {
    var out := Sanitized(toks, st);
    WrittenSpelled(out);
    SanitizeIdempotent(toks, st, again);
    SanitizedReads(toks, st);
    SanitizedReads(again, []);
    ReadEscaped(out, []);
  }

  lemma AgainClean(toks: seq<Token>, st: Stack, out: seq<Atom>, again: seq<Token>)
    requires AllClean(st) && out == Sanitized(toks, st) && again == Spelled(out)
    ensures forall i :: 0 <= i < |again| ==> CleanToken(again[i])
  {
    SanitizedOnlyCleanTags(toks, st);
    ShapedSanitized(toks, st);
    assert forall i :: 0 <= i < |out| && out[i].Open? ==> Open(out[i].t) in out;
    SpelledClean(out);
  }

  /** Main result: a reader of the text finds in it exactly what the input stream means, only
      allowed tags, and nothing left open. */
  lemma {:induction false} TextMeansTheSame(toks: seq<Token>, st: Stack, ents: Entities, again: seq<Token>)
    requires Sane(ents) && AllClean(st) && SafeStack(st) && SafeTokens(toks, ents)
    requires again == Lex(Markup(Sanitized(toks, st)), ents)
    ensures Meaning(again, []) == Meaning(toks, st)
    ensures Final(again, []) == [] && Sanitized(again, []) == Escaped(Sanitized(toks, st))
    ensures forall i :: 0 <= i < |again| ==> CleanToken(again[i])
  {
    TextReadsBackIff(toks, st, ents);
    AgainMeans(toks, st, again);
    AgainClean(toks, st, Sanitized(toks, st), again);
  }

  /** Carrying the open tags over a cut does not change what the texts mean together. */
  lemma {:induction false} CarryKeepsText(a: seq<Token>, b: seq<Token>, st: Stack, ents: Entities)
    requires Sane(ents) && AllClean(st) && SafeStack(st) && SafeTokens(a, ents) && SafeTokens(b, ents)
    ensures AllClean(Final(a, st)) && SafeStack(Final(a, st))
    ensures Meaning(Lex(Markup(Sanitized(a, st)) + Markup(Sanitized(b, Final(a, st))), ents), [])
            == Meaning(Lex(Markup(Sanitized(a + b, st)), ents), [])
  {
    var x, y := Sanitized(a, st), Sanitized(b, Final(a, st));
    SafeFinal(a, st, ents);
    ShapedEmitAll(a, st);
    JoinedReads(x, y, a, b, st, ents);
    assert forall i :: 0 <= i < |a + b| ==> (a + b)[i] == if i < |a| then a[i] else b[i - |a|];
    TextMeansTheSame(a + b, st, ents, Lex(Markup(Sanitized(a + b, st)), ents));
    MeaningConcat(a, b, st);
  }

  lemma {:induction false} SafeFinal(toks: seq<Token>, st: Stack, ents: Entities)
    requires SafeStack(st) && SafeTokens(toks, ents)
    ensures SafeStack(Final(toks, st))
    decreases |toks|
  {
    if toks != [] {
      assert SafeToken(toks[0], ents);
      assert forall i :: 0 <= i < |toks| - 1 ==> toks[1..][i] == toks[i + 1];
      SafeFinal(toks[1..], Next(toks[0], st), ents);
    }
  }

  /** Two outputs written one after the other read as both. */
  lemma JoinedReads(x: seq<Atom>, y: seq<Atom>, a: seq<Token>, b: seq<Token>, st: Stack, ents: Entities)
    requires Sane(ents) && AllClean(st) && SafeStack(st) && SafeTokens(a, ents) && SafeTokens(b, ents)
    requires x == Sanitized(a, st) && y == Sanitized(b, Final(a, st))
    ensures Meaning(Lex(Markup(x) + Markup(y), ents), []) == Meaning(a, st) + Meaning(b, Final(a, st))
  {
    SafeFinal(a, st, ents);
    ShapedEmitAll(a, st);
    MarkupConcat(x, y);
    ShapedSanitized(a, st);
    ShapedSanitized(b, Final(a, st));
    ShapedConcat(x, y);
    ReadableSanitized(a, st, ents);
    ReadableSanitized(b, Final(a, st), ents);
    ReadableConcat(x, y, ents);
    LexesBack(x + y, ents);
    SanitizedReads(a, st);
    SanitizedReads(b, Final(a, st));
    ReadConcat(x, y, []);
    SanitizedOnlyCleanTags(a, st);
    SanitizedOnlyCleanTags(b, Final(a, st));
    SpelledMeans(x + y);
  }

  lemma SpelledMeans(atoms: seq<Atom>)
    requires Read(atoms, []).Reading? && OnlyCleanTags(atoms)
    ensures Meaning(Spelled(atoms), []) == Read(atoms, []).seen
  {
    WrittenSpelled(atoms);
    ReadEscaped(atoms, []);
    assert forall t :: Open(t) in Escaped(atoms) ==> Open(t) in atoms;
    WellNestedIsFixed(Spelled(atoms), []);
    ReadEmitAll(Spelled(atoms), []);
  }

  // ---- Sanitising the text a second time ----

  predicate PlainShown(name: string) {
    forall i :: 0 <= i < |name| ==> !Special(name[i])
  }

  /** The token shows no name with a character escapeHTML would have replaced. */
  predicate EscapedToken(tok: Token) {
    match tok
    case StartTag(name, _) => Lower(name) in ALLOWED_TAGS || PlainShown(name)
    case EndTag(name) => Lower(name) in ALLOWED_TAGS || PlainShown(name)
    case SelfClosing(name) => PlainShown(Lower(name))
    case _ => true
  }

  predicate PlainRaws(atoms: seq<Atom>) {
    forall i :: 0 <= i < |atoms| && atoms[i].Raw? ==> !Special(atoms[i].c)
  }

  lemma {:induction false} EscapedSameIff(atoms: seq<Atom>)
    ensures |Markup(Escaped(atoms))| >= |Markup(atoms)|
    ensures Markup(Escaped(atoms)) == Markup(atoms) <==> PlainRaws(atoms)
  {
    if atoms != [] {
      var a, e := atoms[0], Escaped(atoms);
      assert e[1..] == Escaped(atoms[1..]);
      EscapedSameIff(atoms[1..]);
      assert forall i :: 1 <= i < |atoms| ==> atoms[i] == atoms[1..][i - 1];
      if a.Raw? {
        WrittenCh(a.c);
        assert Write(e[0]) == if Special(a.c) then "&" + ReferenceOf(a.c) + ";" else [a.c];
      }
      SameTail(Write(a), Markup(atoms[1..]), Markup(e[1..]));
    }
  }

  lemma SameTail(w: string, a: string, b: string)
    ensures w + a == w + b <==> a == b
  {
    assert (w + a)[|w|..] == a && (w + b)[|w|..] == b;
  }

  lemma PlainRawsConcat(a: seq<Atom>, b: seq<Atom>)
    ensures PlainRaws(a + b) <==> PlainRaws(a) && PlainRaws(b)
  {
    assert forall i :: 0 <= i < |a| ==> a[i] == (a + b)[i];
    assert forall i :: 0 <= i < |b| ==> b[i] == (a + b)[i + |a|];
  }

  lemma PlainRawsDisplayed(before: string, name: string, after: string)
    ensures PlainRaws(Displayed(before, name, after)) <==> PlainShown(name)
  {
    PlainRawsConcat(Chars("<" + before) + Raws(name), Chars(after + ">"));
    PlainRawsConcat(Chars("<" + before), Raws(name));
    assert forall i :: 0 <= i < |name| ==> Raws(name)[i] == Raw(name[i]);
  }

  lemma {:induction false} ClosesHoldNoRaw(st: Stack, k: nat)
    ensures PlainRaws(ClosesDownTo(st, k))
    decreases |st|
  {
    if |st| > k {
      ClosesHoldNoRaw(st[..|st| - 1], k);
    }
  }

  lemma {:induction false} PlainRawsEmitted(toks: seq<Token>, st: Stack)
    ensures PlainRaws(EmitAll(toks, st)) <==> forall i :: 0 <= i < |toks| ==> EscapedToken(toks[i])
    decreases |toks|
  {
    if toks != [] {
      match toks[0] {
        case StartTag(name, _) => PlainRawsDisplayed("", name, "");
        case EndTag(name) =>
          PlainRawsDisplayed("/", name, "");
          if Innermost(st, Lower(name)) >= 0 { ClosesHoldNoRaw(st, Innermost(st, Lower(name))); }
        case SelfClosing(name) => PlainRawsDisplayed("", Lower(name), "/");
        case _ =>
      }
      assert PlainRaws(Emit(toks[0], st)) <==> EscapedToken(toks[0]);
      PlainRawsEmitted(toks[1..], Next(toks[0], st));
      PlainRawsConcat(Emit(toks[0], st), EmitAll(toks[1..], Next(toks[0], st)));
      assert forall i :: 1 <= i < |toks| ==> toks[i] == toks[1..][i - 1];
      assert forall i :: 0 <= i < |toks| - 1 ==> toks[1..][i] == toks[i + 1];
    }
  }

  /** Sanitising the text again gives the same text if and only if no shown name holds an
      '&', '<' or '>', which the first pass leaves and the second escapes. */
  lemma SecondPassSameIff(toks: seq<Token>, st: Stack, ents: Entities)
    requires Sane(ents) && AllClean(st) && SafeStack(st) && SafeTokens(toks, ents)
    ensures var text := Markup(Sanitized(toks, st));
      Markup(Sanitized(Lex(text, ents), [])) == text
      <==> forall i :: 0 <= i < |toks| ==> EscapedToken(toks[i])
  {
    var out := Sanitized(toks, st);
    TextMeansTheSame(toks, st, ents, Lex(Markup(out), ents));
    EscapedSameIff(out);
    PlainRawsEmitted(toks, st);
    ClosesHoldNoRaw(Final(toks, st), 0);
    PlainRawsConcat(Opens(st) + EmitAll(toks, st), ClosesDownTo(Final(toks, st), 0));
    PlainRawsConcat(Opens(st), EmitAll(toks, st));
  }

  // ---- Names for which it fails ----

  lemma MarkupHead(c: char, tail: seq<Atom>, atoms: seq<Atom>)
    requires atoms == [Ch(c)] + tail
    ensures Markup(atoms) == EscapeText([c]) + Markup(tail)
  {
    assert atoms[1..] == tail;
  }

  lemma MarkupBefore(before: string, atoms: seq<Atom>)
    requires NameTail(before) && atoms == Chars("<" + before)
    ensures Markup(atoms) == "&lt;" + before
  {
    WrittenCh('<');
    WrittenCh('/');
    var tail := Chars(before);
    assert atoms == [Ch('<')] + tail;
    MarkupHead('<', tail, atoms);
    assert "lt" + ";" == "lt;" && Markup([]) == "";
    if before == "/" {
      assert tail == [Ch('/')] + [];
      MarkupHead('/', [], tail);
    }
  }

  lemma DisplayedText(before: string, name: string, after: string)
    requires NameTail(before) && NameTail(after)
    ensures Markup(Displayed(before, name, after)) == "&lt;" + before + (name + (after + "&gt;"))
  {
    DisplayedParts(before, name, after);
    MarkupConcat(Chars("<" + before), Raws(name) + Chars(after + ">"));
    MarkupName(name, after);
    MarkupBefore(before, Chars("<" + before));
  }

  lemma NoTagWithoutGt(s: string, ents: Entities)
    requires s != "" && Opener(s[0])
    ensures ReadMarkup(s, ents).Some? ==> '>' in s
  {
    if ReadMarkup(s, ents).Some? {
      MarkupEndsAtGt(s, ents);
    }
  }

  lemma DisplayedAlone(tok: Token, atoms: seq<Atom>)
    requires Emit(tok, []) == atoms && Next(tok, []) == []
    ensures Sanitized([tok], []) == atoms
  {
    var toks: seq<Token>, st: Stack := [tok], [];
    assert toks[1..] == [] && Opens(st) == [];
    assert EmitAll(toks, st) == atoms + EmitAll(toks[1..], st);
    assert Final(toks, st) == Final(toks[1..], st);
  }

  /** Text that ends in a tag without '>'. */
  lemma LostTag(s: string, text: string, ents: Entities)
    requires text == "x" + ("<" + s) && s != "" && Opener(s[0]) && '>' !in s
    ensures Lex(text, ents) == [TextToken("x")]
  {
    var inner := "<" + s;
    assert inner[1..] == s && text[1..] == inner;
    NoTagWithoutGt(s, ents);
    LexMarkup(inner, ents);
    LexPlain(text, ents);
  }

  lemma LexBefore(before: string, rest: string, text: string, ents: Entities)
    requires Sane(ents) && NameTail(before) && text == "&lt;" + before + rest
    ensures Lex(text, ents) == Html.Texts("<" + before) + Lex(rest, ents)
  {
    hide Lex;
    var s := before + rest;
    LessThan(s, text, ents);
    if before == "" {
      assert s == rest;
      assert Html.Texts("<" + before) == [TextToken("<")];
    } else {
      SlashBefore(rest, s, ents);
      assert Html.Texts("<" + before) == [TextToken("<"), TextToken("/")];
    }
  }

  lemma LessThan(s: string, text: string, ents: Entities)
    requires Sane(ents) && text == "&lt;" + s
    ensures Lex(text, ents) == [TextToken("<")] + Lex(s, ents)
  {
    WrittenCh('<');
    LexCh('<', s, text, ents);
  }

  lemma SlashBefore(rest: string, s: string, ents: Entities)
    requires s == "/" + rest
    ensures Lex(s, ents) == [TextToken("/")] + Lex(rest, ents)
  {
    assert s[1..] == rest;
    LexPlain(s, ents);
  }

  lemma LostName(end: string, rest: string, ents: Entities)
    requires '>' !in end && rest == "x<b" + end
    ensures Lex(rest, ents) == [TextToken("x")]
  {
    var tail := "b" + end;
    assert rest == "x" + ("<" + tail);
    LostTag(tail, rest, ents);
  }

  lemma TextsLast(s: string, c: char, s': string)
    requires s' == s + [c]
    ensures Html.Texts(s) + [TextToken([c])] == Html.Texts(s')
  {
  }

  /** A name with "<b" in it: the reader takes that for the start of a tag and loses the
      rest. */
  lemma NameIsLost(before: string, after: string, ents: Entities)
    requires Sane(ents) && NameTail(before) && NameTail(after)
    ensures Lex(Markup(Displayed(before, "x<b", after)), ents) == Html.Texts("<" + before + "x")
  {
    DisplayedText(before, "x<b", after);
    var end := after + "&gt;";
    LostName(end, "x<b" + end, ents);
    LexBefore(before, "x<b" + end, "&lt;" + before + ("x<b" + end), ents);
    TextsLast("<" + before, 'x', "<" + before + "x");
  }

  lemma NameAloneIsLost(tok: Token, before: string, after: string, ents: Entities)
    requires Sane(ents) && NameTail(before) && NameTail(after)
    requires Emit(tok, []) == Displayed(before, "x<b", after) && Next(tok, []) == []
    ensures Lex(Markup(Sanitized([tok], [])), ents) == Html.Texts("<" + before + "x")
  {
    DisplayedAlone(tok, Displayed(before, "x<b", after));
    NameIsLost(before, after, ents);
  }

  /** The three tokens with that name: what the input shows as "<x<b>", "</x<b>" and "<x<b/>"
      reads as "<x", "</x" and "<x". */
  lemma NamesThatAreLost(attrs: seq<Attr>, ents: Entities)
    requires Sane(ents)
    ensures Lex(Markup(Sanitized([StartTag("x<b", attrs)], [])), ents) == Html.Texts("<" + "" + "x")
    ensures Lex(Markup(Sanitized([EndTag("x<b")], [])), ents) == Html.Texts("<" + "/" + "x")
    ensures Lex(Markup(Sanitized([SelfClosing("x<b")], [])), ents) == Html.Texts("<" + "" + "x")
  {
    LowerAlready("x<b");
    NotAllowed("x<b", 1);
    NameAloneIsLost(StartTag("x<b", attrs), "", "", ents);
    NameAloneIsLost(EndTag("x<b"), "/", "", ents);
    NameAloneIsLost(SelfClosing("x<b"), "", "/", ents);
  }

  lemma NotAllowed(name: string, i: nat)
    requires i < |name| && !('a' <= name[i] <= 'z') && name[i] != '-'
    ensures name !in ALLOWED_TAGS
  {
    if name in ALLOWED_TAGS {
      AllowedChars(name);
    }
  }

  lemma LowerAlready(name: string)
    requires forall i :: 0 <= i < |name| ==> !('A' <= name[i] <= 'Z')
    ensures Lower(name) == name
  {
  }

  /** A name that reads back but is changed by a second pass. */
  lemma SecondPassChanges(attrs: seq<Attr>, ents: Entities)
    requires Sane(ents) && EntityAt("y", ents).None?
    ensures var text := Markup(Sanitized([StartTag("x&y", attrs)], []));
      Markup(Sanitized(Lex(text, ents), [])) != text
  {
    LowerAlready("x&y");
    NotAllowed("x&y", 1);
    var toks := [StartTag("x&y", attrs)];
    assert "x&y"[1..] == "&y" && "&y"[1..] == "y" && "y"[1..] == "";
    assert SafeName("&y", "", ents);
    assert SafeName("x&y", "", ents);
    assert SafeToken(toks[0], ents);
    assert Special("x&y"[1]) && !EscapedToken(toks[0]);
    SecondPassSameIff(toks, [], ents);
  }

  /** A kept attribute that is written twice: a reader takes the first value only. */
  lemma SecondValueIsLost(u: string, v: string, ents: Entities)
    requires Sane(ents) && '"' !in u && '"' !in v
    ensures Lex(Markup(Sanitized([StartTag("a", [Attr("href", u), Attr("href", v)])], [])), ents)
            == [StartTag("a", [Attr("href", u)]), EndTag("a")]
  {
    var first, second := Attr("href", u), Attr("href", v);
    var twice := [first, second];
    TwiceKept(first, second, twice);
    LinkAlone(twice);
    LinkReads(OpenTag("a", twice), ents);
  }

  lemma TwiceKept(first: Attr, second: Attr, twice: seq<Attr>)
    requires first.key == "href" == second.key && twice == [first, second]
    ensures CleanAttrs("a", twice) == twice && FirstOnly(twice, {}) == [first] && PlainAttrs(twice)
  {
    LowerAlready("href");
    CleanAttrsPlain("a", twice);
    assert twice[1..] == [second] && [second][1..] == [];
    assert first == Attr("href", first.val) && second == Attr("href", second.val);
    assert CleanAttrs("a", [second]) == [second];
    var seen := {} + {first.key};
    assert FirstOnly([second], seen) == FirstOnly([], seen) == [];
  }

  lemma LinkAlone(attrs: seq<Attr>)
    requires CleanAttrs("a", attrs) == attrs
    ensures Sanitized([StartTag("a", attrs)], []) == [Open(OpenTag("a", attrs)), Close("a")]
  {
    hide CleanAttrs;
    LowerAlready("a");
    var tok, t := StartTag("a", attrs), OpenTag("a", attrs);
    assert "a" in ALLOWED_TAGS;
    assert [tok][1..] == [] && [] + [t] == [t] && Opens([]) == [];
    assert EmitAll([tok], []) == [Open(t)] && Final([tok], []) == [t];
    assert [t][..0] == [] && ClosesDownTo([], 0) == [];
    assert ClosesDownTo([t], 0) == [Close(t.tag)];
  }

  lemma LinkReads(t: OpenTag, ents: Entities)
    requires Sane(ents) && t.tag == "a" && PlainAttrs(t.attrs) && QuoteFree(t.attrs)
    ensures Lex(Markup([Open(t), Close("a")]), ents) == [StartTag("a", FirstOnly(t.attrs, {})), EndTag("a")]
  {
    var end, none := Write(Close("a")), "";
    assert end + none == end;
    MarkupConcat([Open(t)], [Close("a")]);
    MarkupOne(Open(t));
    MarkupOne(Close("a"));
    assert [Open(t)] + [Close("a")] == [Open(t), Close("a")];
    LexClose("a", none, end, ents);
    LexWritten(t, end, Write(Open(t)) + end, ents);
  }

  lemma OneText(s: string, c: char)
    requires s == [c]
    ensures Html.Texts(s) == [TextToken([c])]
  {
  }

  lemma BoldText(end: string, tail: string, rest: string, text: string, ents: Entities)
    requires Sane(ents) && text == "&lt;" + "" + rest
    requires end == "></i>" && tail == "b" + ("/" + ("&gt;<i" + end)) && rest == "x" + ("<" + tail)
    ensures Lex(text, ents)
            == [TextToken("<"), TextToken("x"), StartTag("b", [Attr("&gt;<i", "")]), EndTag("i")]
  {
    OneText("<" + "", '<');
    LexBefore("", rest, text, ents);
    ReadsBold(end, tail, rest, ents);
  }

  /** A tag the input does not have: the self-closing `<x<b/>` in front of `<i>` makes the
      reader open a `<b>`, and the closing `</i>` written for the `<i>` closes nothing. */
  lemma TagAppears(ents: Entities)
    requires Sane(ents)
    ensures Lex(Markup(Sanitized([SelfClosing("x<b"), StartTag("i", [])], [])), ents)
            == [TextToken("<"), TextToken("x"), StartTag("b", [Attr("&gt;<i", "")]), EndTag("i")]
  {
    var end := "></i>";
    var tail := "b" + ("/" + ("&gt;<i" + end));
    var rest := "x" + ("<" + tail);
    ItalicWhole([SelfClosing("x<b"), StartTag("i", [])], rest);
    BoldText(end, tail, rest, "&lt;" + "" + rest, ents);
  }

  lemma ItalicWhole(toks: seq<Token>, rest: string)
    requires toks == [SelfClosing("x<b"), StartTag("i", [])]
    requires rest == "x" + ("<" + ("b" + ("/" + ("&gt;<i" + "></i>"))))
    ensures Markup(Sanitized(toks, [])) == "&lt;" + "" + rest
  {
    var i := OpenTag("i", []);
    ItalicAfter(toks, i);
    var shown, tag := Displayed("", "x<b", "/"), [Open(i), Close("i")];
    DisplayedText("", "x<b", "/");
    MarkupConcat(shown, tag);
    ItalicText(i);
    JoinText(Markup(shown), Markup(tag), rest);
  }

  lemma JoinText(a: string, b: string, rest: string)
    requires a == "&lt;" + "" + ("x<b" + ("/" + "&gt;")) && b == "<i></i>"
    requires rest == "x" + ("<" + ("b" + ("/" + ("&gt;<i" + "></i>"))))
    ensures a + b == "&lt;" + "" + rest
  {
  }

  lemma ItalicAfter(toks: seq<Token>, i: OpenTag)
    requires toks == [SelfClosing("x<b"), StartTag("i", [])] && i == OpenTag("i", [])
    ensures Sanitized(toks, []) == Displayed("", "x<b", "/") + [Open(i), Close("i")]
  {
    LowerAlready("x<b");
    ItalicEmits(i);
    TwoTokens(toks[0], toks[1], toks, Displayed("", "x<b", "/"), [Open(i)], i);
  }

  lemma ItalicEmits(i: OpenTag)
    requires i == OpenTag("i", [])
    ensures Emit(StartTag("i", []), []) == [Open(i)] && Next(StartTag("i", []), []) == [i]
  {
    LowerAlready("i");
    assert [] + [i] == [i];
  }

  lemma TwoTokens(a: Token, b: Token, toks: seq<Token>, x: seq<Atom>, y: seq<Atom>, i: OpenTag)
    requires toks == [a, b] && Emit(a, []) == x && Next(a, []) == [] && Emit(b, []) == y && Next(b, []) == [i]
    ensures Sanitized(toks, []) == x + (y + [Close(i.tag)])
  {
    assert toks[1..] == [b] && [b][1..] == [];
    assert EmitAll([b], []) == y + [] && Final([b], []) == [i];
    assert EmitAll(toks, []) == x + y;
    assert [i][..0] == [] && ClosesDownTo([], 0) == [];
    assert ClosesDownTo([i], 0) == [Close(i.tag)];
    assert Opens([]) == [];
  }

  lemma ItalicText(i: OpenTag)
    requires i == OpenTag("i", [])
    ensures Markup([Open(i), Close("i")]) == "<i></i>"
  {
    assert [Open(i), Close("i")][1..] == [Close("i")] && [Close("i")][1..] == [];
    assert Markup([Close("i")]) == "</i>";
  }

  lemma BoldAttrs(key: string, end: string, x: string, ents: Entities)
    requires key == "&gt;<i" && end == "></i>" && x == "/" + (key + end)
    ensures ReadAttrs(x, ents) == Some(TagEnd([Attr(key, "")], false, "</i>"))
  {
    assert x[1..] == key + end;
    ReadBareKey(key, end, key + end, ents);
    assert end[1..] == "</i>";
    assert [Attr(key, "")] + [] == [Attr(key, "")];
  }

  lemma ItalicEnd(text: string, ents: Entities)
    requires text == "</i>"
    ensures Lex(text, ents) == [EndTag("i")]
  {
    var none := "";
    assert Write(Close("i")) + none == text;
    LexClose("i", none, text, ents);
    assert [EndTag("i")] + Lex(none, ents) == [EndTag("i")];
  }

  lemma BoldStarts(a: Attr, x: string, after: string, inner: string, ents: Entities)
    requires x != "" && NameEnd(x[0]) && inner == "<" + "b" + x && ReadAttrs(x, ents) == Some(TagEnd([a], false, after))
    ensures Lex(inner, ents) == [StartTag("b", [a])] + Lex(after, ents)
  {
    AllowedName("b");
    LexStart("b", x, [a], after, inner, ents);
    assert OnceEach([a], {});
    FirstOnlyIff([a], {});
  }

  lemma ReadsBold(end: string, tail: string, rest: string, ents: Entities)
    requires end == "></i>" && tail == "b" + ("/" + ("&gt;<i" + end)) && rest == "x" + ("<" + tail)
    ensures Lex(rest, ents) == [TextToken("x"), StartTag("b", [Attr("&gt;<i", "")]), EndTag("i")]
  {
    var x, after := "/" + ("&gt;<i" + end), "</i>";
    BoldAttrs("&gt;<i", end, x, ents);
    var inner := "<" + tail;
    assert inner == "<" + "b" + x;
    BoldStarts(Attr("&gt;<i", ""), x, after, inner, ents);
    ItalicEnd(after, ents);
    XBefore(inner, rest, ents);
  }

  lemma XBefore(inner: string, rest: string, ents: Entities)
    requires rest == "x" + inner
    ensures Lex(rest, ents) == [TextToken("x")] + Lex(inner, ents)
  {
    assert rest[1..] == inner;
    LexPlain(rest, ents);
  }

  // ---- Blank chunks ----

  lemma EscapedBlankIff(c: char)
    ensures AllSpace(EscapeText([c])) <==> IsSpace(c)
  {
    WrittenCh(c);
    if Special(c) {
      assert EscapeText([c])[0] == '&';
    } else {
      assert EscapeText([c])[0] == c;
    }
  }

  lemma WrittenBlankIff(a: Atom)
    ensures AllSpace(Write(a)) <==> (a.Ch? || a.Raw?) && IsSpace(a.c)
  {
    match a
    case Ch(c) => EscapedBlankIff(c);
    case Raw(c) => assert Write(a)[0] == c;
    case Open(_) => assert Write(a)[0] == '<';
    case Close(_) => assert Write(a)[0] == '<';
  }

  lemma BothBlankIff(a: string, b: string)
    ensures AllSpace(a + b) <==> AllSpace(a) && AllSpace(b)
  {
    if AllSpace(a + b) {
      assert forall i :: 0 <= i < |a| ==> a[i] == (a + b)[i];
      assert forall i :: 0 <= i < |b| ==> b[i] == (a + b)[|a| + i];
    }
  }

  /** A chunk is dropped if and only if white space is all there is to its text. */
  lemma {:induction false} BlankIff(atoms: seq<Atom>)
    ensures IsBlank(atoms) <==> TrimSpace(Markup(atoms)) == ""
    decreases |atoms|
  {
    TrimmedAwayIff(Markup(atoms));
    if atoms != [] {
      var a, rest := atoms[0], atoms[1..];
      BlankIff(rest);
      TrimmedAwayIff(Markup(rest));
      WrittenBlankIff(a);
      BothBlankIff(Write(a), Markup(rest));
      assert Markup(atoms) == Write(a) + Markup(rest);
      hide Write, Markup, TrimSpace, AllSpace;
      assert atoms == [a] + rest;
    }
  }
}
