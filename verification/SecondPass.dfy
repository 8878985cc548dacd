/** What sanitising a sanitised text a second time changes, for every name a tokenizer can
    give, safe or not. */
module SecondPass {
  import opened Html
  import opened Results
  import opened SanitizedText
  import opened Sanitizer
  import opened Text

  // ---- Names that survive ----

  /** After an '&': one of the references escapeHTML writes. */
  predicate HasRef(s: string) {
    "amp;" <= s || "lt;" <= s || "gt;" <= s
  }

  predicate KeptChar(c: char, rest: string) {
    c != '<' && c != '>' && (c == '&' ==> HasRef(rest))
  }

  /** A name with no angle bracket, in which every '&' starts such a reference. */
  predicate KeptName(name: string) {
    name == "" || (KeptChar(name[0], name[1..]) && KeptName(name[1..]))
  }

  predicate KeptToken(tok: Token) {
    match tok
    case StartTag(name, _) => Lower(name) in ALLOWED_TAGS || KeptName(name)
    case EndTag(name) => Lower(name) in ALLOWED_TAGS || KeptName(name)
    case SelfClosing(name) => KeptName(Lower(name))
    case _ => true
  }

  /** A name as a tokenizer gives it: it ends at white space, '/' or '>'. */
  predicate TokenName(name: string) {
    forall i :: 0 <= i < |name| ==> !NameEnd(name[i])
  }

  /** The token has such a name, and attributes that read as they are written. */
  predicate FromTokenizer(tok: Token) {
    match tok
    case StartTag(name, attrs) =>
      TokenName(name) && (Lower(name) in ALLOWED_TAGS ==> AttrsSafe(CleanAttrs(Lower(name), attrs)))
    case EndTag(name) => TokenName(name)
    case SelfClosing(name) => TokenName(name)
    case _ => true
  }

  // ---- The same, on atoms ----

  predicate KeptFrom(atoms: seq<Atom>) {
    atoms == [] || ((atoms[0].Raw? ==> KeptChar(atoms[0].c, Markup(atoms[1..]))) && KeptFrom(atoms[1..]))
  }

  /** The rest of a shown name and the escaped '>' it is shown with. */
  predicate ShownTail(atoms: seq<Atom>) {
    atoms != [] &&
    match atoms[0]
    case Raw(c) => !NameEnd(c) && ShownTail(atoms[1..])
    case Ch(c) => c == '>' || (c == '/' && |atoms| > 1 && atoms[1] == Ch('>'))
    case _ => false
  }

  predicate NamesShown(atoms: seq<Atom>) {
    atoms == [] || ((atoms[0].Raw? ==> ShownTail(atoms)) && NamesShown(atoms[1..]))
  }

  lemma MarkupFirst(atoms: seq<Atom>)
    requires atoms != []
    ensures Markup(atoms) == Write(atoms[0]) + Markup(atoms[1..])
  {
  }

  lemma {:induction false} ShownTailGrows(a: seq<Atom>, b: seq<Atom>)
    requires ShownTail(a)
    ensures ShownTail(a + b)
    decreases |a|
  {
    if a[0].Raw? {
      assert (a + b)[1..] == a[1..] + b;
      ShownTailGrows(a[1..], b);
    }
  }

  /** The text of such a tail has a '&' or '/', which no reference holds. */
  lemma {:induction false} TailStops(atoms: seq<Atom>) returns (j: nat)
    requires ShownTail(atoms)
    ensures j < |Markup(atoms)| && Markup(atoms)[j] in "&/"
    decreases |atoms|
  {
    MarkupFirst(atoms);
    if atoms[0].Raw? {
      var k := TailStops(atoms[1..]);
      j := k + 1;
    } else {
      WrittenCh(atoms[0].c);
      j := 0;
    }
  }

  lemma RefWithin(s: string, j: nat, x: string)
    requires j < |s| && s[j] in "&/"
    ensures HasRef(s + x) <==> HasRef(s)
  {
    PrefixWithin("amp;", s, j, x);
    PrefixWithin("lt;", s, j, x);
    PrefixWithin("gt;", s, j, x);
  }

  lemma PrefixWithin(r: string, s: string, j: nat, x: string)
    requires j < |s| && s[j] in "&/" && forall i :: 0 <= i < |r| ==> r[i] !in "&/"
    ensures r <= s + x <==> r <= s
  {
    assert (s + x)[j] == s[j];
  }

  lemma {:induction false} KeptConcat(a: seq<Atom>, b: seq<Atom>)
    requires NamesShown(a)
    ensures KeptFrom(a + b) <==> KeptFrom(a) && KeptFrom(b)
    ensures NamesShown(b) ==> NamesShown(a + b)
    decreases |a|
  {
    if a == [] {
      assert a + b == b;
    } else {
      assert (a + b)[1..] == a[1..] + b;
      KeptConcat(a[1..], b);
      if a[0].Raw? {
        ShownTailGrows(a, b);
        MarkupConcat(a[1..], b);
        var j := TailStops(a[1..]);
        RefWithin(Markup(a[1..]), j, Markup(b));
      }
    }
  }

  lemma {:induction false} NoRawKept(atoms: seq<Atom>)
    requires forall i :: 0 <= i < |atoms| ==> !atoms[i].Raw?
    ensures KeptFrom(atoms) && NamesShown(atoms)
  {
    if atoms != [] {
      NoRawKept(atoms[1..]);
    }
  }

  lemma {:induction false} ClosesKept(st: Stack, k: nat)
    ensures KeptFrom(ClosesDownTo(st, k)) && NamesShown(ClosesDownTo(st, k))
    decreases |st|
  {
    if |st| > k {
      ClosesKept(st[..|st| - 1], k);
    }
  }

  lemma {:induction false} NameKeptIff(name: string, after: string)
    requires NameTail(after) && TokenName(name)
    ensures var atoms := Raws(name) + Chars(after + ">");
      ShownTail(atoms) && NamesShown(atoms) && (KeptFrom(atoms) <==> KeptName(name))
    decreases |name|
  {
    var end := Chars(after + ">");
    var atoms := Raws(name) + end;
    NoRawKept(end);
    if name == "" {
      assert atoms == end;
      assert (after + ">")[0] == if after == "" then '>' else '/';
      assert after == "/" ==> end[1] == Ch('>');
    } else {
      var more := name[1..];
      assert atoms[0] == Raw(name[0]) && atoms[1..] == Raws(more) + end;
      NameKeptIff(more, after);
      MarkupName(more, after);
      RefInName(more, after + "&gt;");
    }
  }

  /** A reference cannot reach beyond the name. */
  lemma RefInName(name: string, x: string)
    requires x != "" && x[0] in "&/"
    ensures HasRef(name + x) <==> HasRef(name)
  {
    RefUpTo("amp;", name, x);
    RefUpTo("lt;", name, x);
    RefUpTo("gt;", name, x);
  }

  lemma RefUpTo(r: string, name: string, x: string)
    requires x != "" && x[0] in "&/" && forall i :: 0 <= i < |r| ==> r[i] !in "&/"
    ensures r <= name + x <==> r <= name
  {
    assert (name + x)[|name|] == x[0];
  }

  lemma DisplayedKeptIff(before: string, name: string, after: string)
    requires NameTail(after) && TokenName(name)
    ensures NamesShown(Displayed(before, name, after)) && (KeptFrom(Displayed(before, name, after)) <==> KeptName(name))
  {
    var head := Chars("<" + before);
    DisplayedParts(before, name, after);
    NoRawKept(head);
    NameKeptIff(name, after);
    KeptConcat(head, Raws(name) + Chars(after + ">"));
  }

  lemma LowerTokenName(name: string)
    requires TokenName(name)
    ensures TokenName(Lower(name))
  {
  }

  lemma EmitKeptIff(tok: Token, st: Stack)
    requires FromTokenizer(tok)
    ensures NamesShown(Emit(tok, st)) && (KeptFrom(Emit(tok, st)) <==> KeptToken(tok))
  {
    match tok
    case TextToken(data) => NoRawKept(Chars(data));
    case StartTag(name, attrs) =>
      if Lower(name) in ALLOWED_TAGS { NoRawKept(Emit(tok, st)); } else { DisplayedKeptIff("", name, ""); }
    case EndTag(name) =>
      if Lower(name) !in ALLOWED_TAGS {
        DisplayedKeptIff("/", name, "");
      } else if Innermost(st, Lower(name)) >= 0 {
        ClosesKept(st, Innermost(st, Lower(name)));
      }
    case SelfClosing(name) =>
      LowerTokenName(name);
      DisplayedKeptIff("", Lower(name), "/");
    case _ =>
  }

  lemma {:induction false} EmitAllKeptIff(toks: seq<Token>, st: Stack)
    requires forall i :: 0 <= i < |toks| ==> FromTokenizer(toks[i])
    ensures NamesShown(EmitAll(toks, st))
    ensures KeptFrom(EmitAll(toks, st)) <==> forall i :: 0 <= i < |toks| ==> KeptToken(toks[i])
    decreases |toks|
  {
    if toks != [] {
      var st', more := Next(toks[0], st), toks[1..];
      EmitKeptIff(toks[0], st);
      assert forall i :: 0 <= i < |more| ==> more[i] == toks[i + 1];
      EmitAllKeptIff(more, st');
      KeptConcat(Emit(toks[0], st), EmitAll(more, st'));
      assert forall i :: 1 <= i < |toks| ==> toks[i] == more[i - 1];
    }
  }

  // ---- How a written text can begin ----

  predicate TagChar(c: char) {
    'a' <= c <= 'z' || c == '-'
  }

  /** Letters or hyphens up to a blank or '>'. */
  predicate TagEnds(s: string) {
    s != "" && if TagChar(s[0]) then TagEnds(s[1..]) else s[0] == ' ' || s[0] == '>'
  }

  predicate WrittenStart(text: string) {
    text == "" ||
    if text[0] == '&' then HasRef(text[1..])
    else if text[0] == '<' then TagEnds(text[1..]) || (|text| > 2 && text[1] == '/' && Letter(text[2]))
    else text[0] != '>'
  }

  lemma {:induction false} TagThenEnd(tag: string, x: string, s: string)
    requires (forall i :: 0 <= i < |tag| ==> TagChar(tag[i])) && s == tag + x && x != "" && (x[0] == ' ' || x[0] == '>')
    ensures TagEnds(s)
    decreases |tag|
  {
    if tag == "" {
      assert s == x;
    } else {
      assert s[1..] == tag[1..] + x;
      TagThenEnd(tag[1..], x, s[1..]);
    }
  }

  lemma RefStarts(c: char, x: string)
    requires Special(c)
    ensures HasRef(ReferenceOf(c) + ";" + x)
  {
    var r := ReferenceOf(c) + ";";
    assert r == "amp;" || r == "lt;" || r == "gt;";
    assert r <= r + x;
  }

  /** An escaped character in front of x. */
  lemma RefText(c: char, x: string)
    requires Special(c)
    ensures Write(Ch(c)) + x == "&" + (ReferenceOf(c) + ";" + x)
  {
    WrittenCh(c);
  }

  lemma WrittenChStart(c: char, x: string, text: string)
    requires text == Write(Ch(c)) + x
    ensures WrittenStart(text)
  {
    WrittenCh(c);
    hide HasRef;
    hide ReferenceOf;
    if Special(c) {
      RefText(c, x);
      RefStarts(c, x);
      assert text[1..] == ReferenceOf(c) + ";" + x;
    }
  }

  lemma AngleStart(tag: string, rest: string, text: string)
    requires text == "<" + tag + rest && rest != "" && (rest[0] == ' ' || rest[0] == '>')
    requires forall i :: 0 <= i < |tag| ==> TagChar(tag[i])
    ensures WrittenStart(text)
  {
    assert text[1..] == tag + rest;
    TagThenEnd(tag, rest, text[1..]);
  }

  lemma WrittenTagStart(t: OpenTag, x: string, text: string)
    requires t.tag in ALLOWED_TAGS && PlainAttrs(t.attrs) && text == Write(Open(t)) + x
    ensures WrittenStart(text)
  {
    AllowedChars(t.tag);
    ThreeParts("<" + t.tag, WriteAttrs(t.attrs), ">", x);
    var rest := WriteAttrs(t.attrs) + ">" + x;
    TailStart(t.attrs, x, rest);
    hide WrittenStart;
    AngleStart(t.tag, rest, text);
  }

  lemma HeadWritten(atoms: seq<Atom>)
    requires Shaped(atoms) && (atoms == [] || !atoms[0].Raw?)
    ensures WrittenStart(Markup(atoms))
  {
    if atoms != [] {
      var x, text := Markup(atoms[1..]), Markup(atoms);
      match atoms[0]
      case Ch(c) => WrittenChStart(c, x, text);
      case Open(t) => WrittenTagStart(t, x, text);
      case Close(tag) =>
        AllowedChars(tag);
        assert text[1] == '/' && text[2] == tag[0];
    }
  }

  /** What a pass writes from a stack on. */
  function Onward(toks: seq<Token>, st: Stack): seq<Atom> {
    EmitAll(toks, st) + ClosesDownTo(Final(toks, st), 0)
  }

  lemma OnwardStep(tok: Token, more: seq<Token>, st: Stack)
    ensures Onward([tok] + more, st) == Emit(tok, st) + Onward(more, Next(tok, st))
  {
    assert ([tok] + more)[1..] == more;
  }

  lemma {:induction false} OnwardHead(toks: seq<Token>, st: Stack)
    ensures Onward(toks, st) != [] ==> !Onward(toks, st)[0].Raw?
    decreases |toks|
  {
    if toks != [] {
      OnwardStep(toks[0], toks[1..], st);
      assert [toks[0]] + toks[1..] == toks;
      OnwardHead(toks[1..], Next(toks[0], st));
      EmitHead(toks[0], st);
      if Emit(toks[0], st) == [] {
        assert Onward(toks, st) == Onward(toks[1..], Next(toks[0], st));
      }
    }
  }

  lemma EmitHead(tok: Token, st: Stack)
    ensures Emit(tok, st) != [] ==> !Emit(tok, st)[0].Raw?
  {
  }

  lemma OnwardShaped(toks: seq<Token>, st: Stack)
    requires AllClean(st)
    ensures Shaped(Onward(toks, st))
  {
    ShapedEmitAll(toks, st);
    ShapedCloses(Final(toks, st), 0);
    ShapedConcat(EmitAll(toks, st), ClosesDownTo(Final(toks, st), 0));
  }

  lemma OnwardStart(toks: seq<Token>, st: Stack)
    requires AllClean(st)
    ensures WrittenStart(Markup(Onward(toks, st)))
  {
    OnwardHead(toks, st);
    OnwardShaped(toks, st);
    HeadWritten(Onward(toks, st));
  }

  /** No written text begins like the rest of a name from a raw '<' on. */
  lemma {:induction false} TailNoTag(atoms: seq<Atom>)
    requires ShownTail(atoms)
    ensures !TagEnds(Markup(atoms))
    ensures |Markup(atoms)| > 1 && Markup(atoms)[0] == '/' ==> !Letter(Markup(atoms)[1])
    decreases |atoms|
  {
    MarkupFirst(atoms);
    if atoms[0].Raw? {
      TailNoTag(atoms[1..]);
      assert Markup(atoms)[1..] == Markup(atoms[1..]);
    } else {
      WrittenCh(atoms[0].c);
      WrittenCh('>');
      if atoms[0] == Ch('/') {
        MarkupFirst(atoms[1..]);
      }
    }
  }

  lemma RawStart(atoms: seq<Atom>)
    requires atoms != [] && atoms[0].Raw? && ShownTail(atoms) && Special(atoms[0].c)
    ensures WrittenStart(Markup(atoms)) ==> atoms[0].c == '&' && HasRef(Markup(atoms[1..]))
  {
    MarkupFirst(atoms);
    assert Markup(atoms)[1..] == Markup(atoms[1..]);
    TailNoTag(atoms[1..]);
  }

  // ---- The second pass, atom by atom ----

  /** A suffix of a first pass's output that closes every tag of st. */
  ghost predicate Fit(atoms: seq<Atom>, st: Stack) {
    && Shaped(atoms) && TagsSafe(atoms) && NamesShown(atoms) && AllClean(st)
    && (forall i :: 0 <= i < |atoms| && atoms[i].Open? ==> Clean(atoms[i].t))
    && Read(atoms, st).Reading? && Read(atoms, st).open == []
  }

  ghost predicate Same(atoms: seq<Atom>, st: Stack, ents: Entities) {
    Markup(Onward(Lex(Markup(atoms), ents), st)) == Markup(atoms)
  }

  lemma FitTail(atoms: seq<Atom>, st: Stack)
    requires Fit(atoms, st) && atoms != []
    ensures match atoms[0]
            case Open(t) => Fit(atoms[1..], st + [t])
            case Close(tag) => st != [] && st[|st| - 1].tag == tag && Fit(atoms[1..], st[..|st| - 1])
            case _ => Fit(atoms[1..], st)
  {
    assert forall i :: 0 <= i < |atoms[1..]| ==> atoms[1..][i] == atoms[i + 1];
    assert atoms[0].Open? ==> Clean(atoms[0].t);
  }

  /** One atom that the second pass reads and writes as itself. */
  lemma OneSame(atoms: seq<Atom>, st: Stack, tok: Token, st': Stack, ents: Entities)
    requires atoms != [] && Lex(Markup(atoms), ents) == [tok] + Lex(Markup(atoms[1..]), ents) && Next(tok, st) == st'
    requires Markup(Emit(tok, st)) == Write(atoms[0])
    ensures Same(atoms, st, ents) <==> Same(atoms[1..], st', ents)
  {
    var more := Lex(Markup(atoms[1..]), ents);
    OnwardStep(tok, more, st);
    MarkupConcat(Emit(tok, st), Onward(more, st'));
    MarkupFirst(atoms);
    SameTail(Write(atoms[0]), Markup(Onward(more, st')), Markup(atoms[1..]));
  }

  lemma CharSame(atoms: seq<Atom>, st: Stack, c: char, ents: Entities)
    requires Sane(ents) && atoms != [] && (atoms[0] == Ch(c) || (atoms[0] == Raw(c) && !Special(c)))
    ensures Same(atoms, st, ents) <==> Same(atoms[1..], st, ents)
  {
    var x, text := Markup(atoms[1..]), Markup(atoms);
    MarkupFirst(atoms);
    if atoms[0].Ch? { LexCh(c, x, text, ents); } else { LexRaw(c, x, text, ents); }
    assert Emit(TextToken([c]), st) == [Ch(c)];
    MarkupOne(Ch(c));
    WrittenCh(c);
    OneSame(atoms, st, TextToken([c]), st, ents);
  }

  lemma OpenSame(atoms: seq<Atom>, st: Stack, t: OpenTag, ents: Entities)
    requires Sane(ents) && Fit(atoms, st) && atoms != [] && atoms[0] == Open(t)
    ensures Same(atoms, st, ents) <==> Same(atoms[1..], st + [t], ents)
  {
    MarkupFirst(atoms);
    AllowedName(t.tag);
    LexOpen(t, Markup(atoms[1..]), Markup(atoms), ents);
    MarkupOne(Open(t));
    OneSame(atoms, st, StartTag(t.tag, t.attrs), st + [t], ents);
  }

  lemma CloseSame(atoms: seq<Atom>, st: Stack, tag: string, ents: Entities)
    requires Sane(ents) && Fit(atoms, st) && atoms != [] && atoms[0] == Close(tag)
    ensures st != [] && (Same(atoms, st, ents) <==> Same(atoms[1..], st[..|st| - 1], ents))
  {
    MarkupFirst(atoms);
    AllowedName(tag);
    FitTail(atoms, st);
    LexClose(tag, Markup(atoms[1..]), Markup(atoms), ents);
    var n := |st| - 1;
    assert Innermost(st, tag) == n && ClosesDownTo(st[..n], n) == [];
    assert ClosesDownTo(st, n) == [Close(tag)];
    MarkupOne(Close(tag));
    OneSame(atoms, st, EndTag(tag), st[..n], ents);
  }

  /** The name of the reference s starts with, and the character it stands for. */
  function RefName(s: string): string
    requires HasRef(s)
  {
    if "amp;" <= s then "amp" else if "lt;" <= s then "lt" else "gt"
  }

  function RefChar(s: string): (c: char)
    requires HasRef(s)
    ensures Special(c) && ReferenceOf(c) == RefName(s)
  {
    if "amp;" <= s then '&' else if "lt;" <= s then '<' else '>'
  }

  /** The characters of a reference inside a name are raw characters. */
  lemma {:induction false} RawRun(atoms: seq<Atom>, r: string, x: string, st: Stack)
    requires Fit(atoms, st) && ShownTail(atoms) && Markup(atoms) == r + x
    requires forall i :: 0 <= i < |r| ==> r[i] !in "&/<>"
    ensures |r| <= |atoms| && Fit(atoms[|r|..], st) && Markup(atoms[|r|..]) == x
    ensures KeptFrom(atoms) <==> KeptFrom(atoms[|r|..])
    decreases |r|
  {
    if r == "" {
      assert atoms[|r|..] == atoms && r + x == x;
    } else {
      RawOne(atoms, r[0], st);
      hide Fit;
      hide KeptFrom;
      hide Markup;
      hide ShownTail;
      Shifted(r, x, Markup(atoms[1..]));
      RawRun(atoms[1..], r[1..], x, st);
      assert atoms[1..][|r| - 1..] == atoms[|r|..];
    }
  }

  lemma Shifted(r: string, x: string, m: string)
    requires r != "" && r + x == [r[0]] + m
    ensures m == r[1..] + x
  {
    assert m == (r + x)[1..];
  }

  lemma RawOne(atoms: seq<Atom>, c: char, st: Stack)
    requires Fit(atoms, st) && ShownTail(atoms) && Markup(atoms) != "" && Markup(atoms)[0] == c && c !in "&/<>"
    ensures Fit(atoms[1..], st) && ShownTail(atoms[1..]) && Markup(atoms) == [c] + Markup(atoms[1..])
    ensures KeptFrom(atoms) <==> KeptFrom(atoms[1..])
  {
    MarkupFirst(atoms);
    FitTail(atoms, st);
    if atoms[0].Ch? { WrittenCh(atoms[0].c); }
  }

  lemma RefSplit(s: string) returns (x: string)
    requires HasRef(s)
    ensures s == RefName(s) + ";" + x
    ensures forall i :: 0 <= i < |RefName(s) + ";"| ==> (RefName(s) + ";")[i] !in "&/<>"
  {
    x := s[|RefName(s)| + 1..];
    assert "amp" + ";" == "amp;" && "lt" + ";" == "lt;" && "gt" + ";" == "gt;";
  }

  lemma ReferenceSame(atoms: seq<Atom>, st: Stack, ents: Entities) returns (k: nat)
    requires Sane(ents) && Fit(atoms, st) && atoms != [] && atoms[0] == Raw('&') && HasRef(Markup(atoms[1..]))
    ensures 1 <= k <= |atoms| && Fit(atoms[k..], st) && (KeptFrom(atoms) <==> KeptFrom(atoms[k..]))
    ensures Same(atoms, st, ents) <==> Same(atoms[k..], st, ents)
  {
    var rest := Markup(atoms[1..]);
    var name, c := RefName(rest), RefChar(rest);
    FitTail(atoms, st);
    MarkupFirst(atoms);
    assert KeptFrom(atoms) <==> KeptFrom(atoms[1..]);
    hide HasRef;
    hide Fit;
    hide KeptFrom;
    hide RefName;
    hide Same;
    var x := RefSplit(rest);
    RawRun(atoms[1..], name + ";", x, st);
    k := 1 + |name + ";"|;
    assert atoms[1..][|name + ";"|..] == atoms[k..];
    ReferenceAgain(atoms, k, st, c, name, ents);
  }

  lemma ReferenceAgain(atoms: seq<Atom>, k: nat, st: Stack, c: char, name: string, ents: Entities)
    requires Sane(ents) && k <= |atoms| && Special(c) && name == ReferenceOf(c)
    requires Markup(atoms) == "&" + (name + ";" + Markup(atoms[k..]))
    ensures Same(atoms, st, ents) <==> Same(atoms[k..], st, ents)
  {
    var x, text := Markup(atoms[k..]), Markup(atoms);
    RefText(c, x);
    LexCh(c, x, text, ents);
    hide Lex;
    hide Write;
    hide Markup;
    hide Sane;
    var more := Lex(x, ents);
    OnwardStep(TextToken([c]), more, st);
    assert Emit(TextToken([c]), st) == [Ch(c)];
    MarkupOne(Ch(c));
    MarkupConcat([Ch(c)], Onward(more, st));
    SameTail(Write(Ch(c)), Markup(Onward(more, st)), x);
  }

  /** The second pass gives the text back if and only if every raw character is kept. */
  lemma {:induction false} SameIff(atoms: seq<Atom>, st: Stack, ents: Entities)
    requires Sane(ents) && Fit(atoms, st)
    ensures Same(atoms, st, ents) <==> KeptFrom(atoms)
    decreases |atoms|
  {
    if atoms == [] {
      assert Markup(atoms) == "" && Onward([], []) == [];
    } else if atoms[0].Raw? && Special(atoms[0].c) {
      RawStart(atoms);
      OnwardStart(Lex(Markup(atoms), ents), st);
      if atoms[0].c == '&' && HasRef(Markup(atoms[1..])) {
        var k := ReferenceSame(atoms, st, ents);
        SameIff(atoms[k..], st, ents);
      }
    } else {
      FitTail(atoms, st);
      match atoms[0] {
        case Ch(c) =>
          CharSame(atoms, st, c, ents);
          SameIff(atoms[1..], st, ents);
        case Raw(c) =>
          CharSame(atoms, st, c, ents);
          SameIff(atoms[1..], st, ents);
        case Open(t) =>
          OpenSame(atoms, st, t, ents);
          SameIff(atoms[1..], st + [t], ents);
        case Close(tag) =>
          CloseSame(atoms, st, tag, ents);
          SameIff(atoms[1..], st[..|st| - 1], ents);
      }
    }
  }

  // ---- Main result ----

  lemma {:induction false} EmitAllTagsSafe(toks: seq<Token>, st: Stack)
    requires forall i :: 0 <= i < |toks| ==> FromTokenizer(toks[i])
    ensures TagsSafe(EmitAll(toks, st))
    decreases |toks|
  {
    if toks != [] {
      var st', more := Next(toks[0], st), toks[1..];
      assert FromTokenizer(toks[0]);
      assert forall i :: 0 <= i < |more| ==> more[i] == toks[i + 1];
      EmitAllTagsSafe(more, st');
      EmitTagsSafe(toks[0], st);
      TagsSafeConcat(Emit(toks[0], st), EmitAll(more, st'));
    }
  }

  lemma EmitTagsSafe(tok: Token, st: Stack)
    requires FromTokenizer(tok)
    ensures TagsSafe(Emit(tok, st))
  {
    if tok.EndTag? && Innermost(st, Lower(tok.name)) >= 0 {
      ClosesTagsSafe(st, Innermost(st, Lower(tok.name)));
    }
  }

  lemma {:induction false} ClosesTagsSafe(st: Stack, k: nat)
    ensures TagsSafe(ClosesDownTo(st, k))
    decreases |st|
  {
    if |st| > k {
      ClosesTagsSafe(st[..|st| - 1], k);
      var atoms := ClosesDownTo(st, k);
      assert atoms[1..] == ClosesDownTo(st[..|st| - 1], k);
      assert forall i :: 1 <= i < |atoms| ==> atoms[i] == atoms[1..][i - 1];
    }
  }

  lemma SanitizedFits(toks: seq<Token>, st: Stack)
    requires AllClean(st) && SafeStack(st) && forall i :: 0 <= i < |toks| ==> FromTokenizer(toks[i])
    ensures Fit(Sanitized(toks, st), [])
    ensures KeptFrom(Sanitized(toks, st)) <==> forall i :: 0 <= i < |toks| ==> KeptToken(toks[i])
  {
    var opens, body, closes := Opens(st), EmitAll(toks, st), ClosesDownTo(Final(toks, st), 0);
    ShapedSanitized(toks, st);
    SanitizedReads(toks, st);
    SanitizedOnlyCleanTags(toks, st);
    NoRawKept(opens);
    EmitAllKeptIff(toks, st);
    ClosesKept(Final(toks, st), 0);
    KeptConcat(opens, body);
    KeptConcat(opens + body, closes);
    EmitAllTagsSafe(toks, st);
    ClosesTagsSafe(Final(toks, st), 0);
    TagsSafeConcat(opens, body);
    TagsSafeConcat(opens + body, closes);
    var out := Sanitized(toks, st);
    assert forall i :: 0 <= i < |out| && out[i].Open? ==> Open(out[i].t) in out;
  }

  /** Main result, for names that are safe and names that are not: sanitising the text again
      gives the same text if and only if no shown name holds an angle bracket, and every '&'
      in one starts a reference that escapeHTML itself writes. */
  lemma UnchangedIff(toks: seq<Token>, st: Stack, ents: Entities)
    requires Sane(ents) && AllClean(st) && SafeStack(st)
    requires forall i :: 0 <= i < |toks| ==> FromTokenizer(toks[i])
    ensures var text := Markup(Sanitized(toks, st));
      Markup(Sanitized(Lex(text, ents), [])) == text <==> forall i :: 0 <= i < |toks| ==> KeptToken(toks[i])
  {
    hide FromTokenizer;
    hide KeptToken;
    hide KeptFrom;
    hide Fit;
    hide Lex;
    var out := Sanitized(toks, st);
    SanitizedFits(toks, st);
    SameIff(out, [], ents);
    FromNothing(Lex(Markup(out), ents));
  }

  lemma FromNothing(toks: seq<Token>)
    ensures Sanitized(toks, []) == Onward(toks, [])
  {
    assert Opens([]) == [];
  }

  /** A name that does not read back and is not changed either: "x&amp;" reads as "x&". */
  lemma ReferenceStays(attrs: seq<Attr>, ents: Entities)
    requires Sane(ents)
    ensures var text := Markup(Sanitized([StartTag("x&amp;", attrs)], []));
      && Markup(Sanitized(Lex(text, ents), [])) == text
      && Lex(text, ents) != Spelled(Sanitized([StartTag("x&amp;", attrs)], []))
  {
    var tok := StartTag("x&amp;", attrs);
    ReferenceName(tok, ents);
    UnchangedIff([tok], [], ents);
    TextReadsBackIff([tok], [], ents);
    assert !SafeTokens([tok], ents) by { assert !SafeToken([tok][0], ents); }
  }

  lemma ReferenceName(tok: Token, ents: Entities)
    requires Sane(ents) && tok.StartTag? && tok.name == "x&amp;"
    ensures FromTokenizer(tok) && KeptToken(tok) && !SafeToken(tok, ents)
  {
    var name, plain := tok.name, "amp;";
    ReferenceShown(name);
    assert name[1..] == "&" + plain;
    OneReference(name, plain);
    ReferenceUnsafe(name, plain, ents);
    hide KeptName;
    hide SafeName;
    hide TokenName;
    hide Lower;
  }

  lemma ReferenceShown(name: string)
    requires name == "x&amp;"
    ensures TokenName(name) && Lower(name) !in ALLOWED_TAGS
  {
    LowerAlready(name);
    NotAllowed(name, 1);
  }

  lemma OneReference(name: string, plain: string)
    requires |name| > 0 && name[0] == 'x' && name[1..] == "&" + plain && plain == "amp;"
    ensures KeptName(name)
  {
    PlainKept(plain);
    assert name[1..][1..] == plain;
    assert KeptName(name[1..]);
  }

  lemma ReferenceUnsafe(name: string, plain: string, ents: Entities)
    requires Sane(ents) && |name| > 0 && name[1..] == "&" + plain && plain == "amp;"
    ensures !SafeName(name, "", ents)
  {
    ReferenceReads('&', "amp", "", ents);
    assert "amp" + ";" + "" == plain;
    assert name[1..][1..] == plain;
    assert !SafeName(name[1..], "", ents);
  }

  lemma {:induction false} PlainKept(name: string)
    requires forall i :: 0 <= i < |name| ==> !Special(name[i])
    ensures KeptName(name)
  {
    if name != "" {
      PlainKept(name[1..]);
    }
  }
}
