/** The text balanceAndSanitizeWithState writes (formatters.go), a reader of such text, and
    when the reader finds in it what was meant. */
module Html {
  import opened Results
  import opened Sanitizer
  import opened Text

  // ---- The written text ----

  /** escapeHTML. */
  function EscapeText(s: string): string {
    if s == [] then []
    else (if s[0] == '&' then "&amp;" else if s[0] == '<' then "&lt;" else if s[0] == '>' then "&gt;" else [s[0]])
         + EscapeText(s[1..])
  }

  function WriteAttr(a: Attr): string {
    if a.key == "expandable" then " expandable" else " " + a.key + "=\"" + EscapeText(a.val) + "\""
  }

  function WriteAttrs(attrs: seq<Attr>): string {
    if attrs == [] then "" else WriteAttr(attrs[0]) + WriteAttrs(attrs[1..])
  }

  function Write(a: Atom): string {
    match a
    case Ch(c) => EscapeText([c])
    case Raw(c) => [c]
    case Open(t) => "<" + t.tag + WriteAttrs(t.attrs) + ">"
    case Close(tag) => "</" + tag + ">"
  }

  function Cat<T>(xs: seq<T>, write: T -> string): string {
    if xs == [] then "" else write(xs[0]) + Cat(xs[1..], write)
  }

  lemma {:induction false} CatConcat<T>(a: seq<T>, b: seq<T>, write: T -> string)
    ensures Cat(a + b, write) == Cat(a, write) + Cat(b, write)
    decreases |a|
  {
    if a == [] {
      assert a + b == b;
    } else {
      assert (a + b)[1..] == a[1..] + b;
      CatConcat(a[1..], b, write);
    }
  }

  /** The text of the atoms. */
  function Markup(atoms: seq<Atom>): string {
    Cat(atoms, Write)
  }

  // ---- Character references ----

  /** A table of character references: for the letters, digits and '#' after an '&', with the
      ';' that ends them, the text meant and how much of the run it takes up. */
  type Entities = string -> Option<(string, nat)>

  predicate InRun(c: char) {
    'a' <= c <= 'z' || 'A' <= c <= 'Z' || '0' <= c <= '9' || c == '#'
  }

  function EntityRun(s: string): (run: string)
    ensures |run| <= |s|
  {
    if s == "" then "" else if s[0] == ';' then ";" else if InRun(s[0]) then [s[0]] + EntityRun(s[1..]) else ""
  }

  /** The reference that starts before s, if any. */
  function EntityAt(s: string, ents: Entities): (e: Option<(string, nat)>)
    ensures e.Some? ==> e.value.1 <= |s|
  {
    var e := ents(EntityRun(s));
    if e.Some? && e.value.1 <= |EntityRun(s)| then e else None
  }

  /** What every such table satisfies: the references escapeHTML writes stand for their
      characters, and no reference stands for more units than it has after the '&'. */
  ghost predicate Sane(ents: Entities) {
    && ents("amp;") == Some(("&", 4)) && ents("lt;") == Some(("<", 3)) && ents("gt;") == Some((">", 3))
    && forall run :: ents(run).Some? ==> Utf16Len(ents(run).value.0) <= ents(run).value.1
  }

  function Decode(s: string, ents: Entities): string
    decreases |s|
  {
    if s == "" then ""
    else if s[0] == '&' && EntityAt(s[1..], ents).Some? then
      var e := EntityAt(s[1..], ents).value;
      e.0 + Decode(s[1..][e.1..], ents)
    else [s[0]] + Decode(s[1..], ents)
  }

  // ---- The reader: the states of section 13.2.5 of the HTML standard that matter here ----

  predicate Letter(c: char) {
    'a' <= c <= 'z' || 'A' <= c <= 'Z'
  }

  predicate White(c: char) {
    c in {' ', '\n', '\r', '\t', '\U{0C}'}
  }

  predicate NameEnd(c: char) {
    White(c) || c == '/' || c == '>'
  }

  predicate KeyEnd(c: char) {
    NameEnd(c) || c == '='
  }

  predicate ValueEnd(c: char) {
    White(c) || c == '>'
  }

  /** What makes a '<' open markup. */
  predicate Opener(c: char) {
    Letter(c) || c == '/' || c == '!' || c == '?'
  }

  function Until(s: string, stop: char -> bool): (head: string)
    ensures |head| <= |s| && s[..|head|] == head
    ensures |head| < |s| ==> stop(s[|head|])
    ensures forall c :: c in head ==> !stop(c)
  {
    if s == "" || stop(s[0]) then "" else [s[0]] + Until(s[1..], stop)
  }

  function SkipWhite(s: string): (rest: string)
    ensures |rest| <= |s|
  {
    if s != "" && White(s[0]) then SkipWhite(s[1..]) else s
  }

  /** A tag's attributes and the text after its '>'. */
  datatype TagEnd = TagEnd(attrs: seq<Attr>, selfClosing: bool, rest: string)

  /** An attribute value and the text after it; None when its quote is never closed. */
  function ReadValue(s: string, ents: Entities): (v: Option<(string, string)>)
    ensures v.Some? ==> |v.value.1| <= |s|
  {
    if s != "" && (s[0] == '"' || s[0] == '\'') then
      var raw := UpTo(s[1..], s[0]);
      if |raw| < |s[1..]| then Some((Decode(raw, ents), s[1..][|raw| + 1..])) else None
    else
      var raw := Until(s, ValueEnd);
      Some((Decode(raw, ents), s[|raw|..]))
  }

  /** The rest of a tag after its name; None when the text ends inside it. */
  function ReadAttrs(s: string, ents: Entities): (r: Option<TagEnd>)
    ensures r.Some? ==> |r.value.rest| < |s|
    decreases |s|
  {
    if s == "" then None
    else if s[0] == '>' then Some(TagEnd([], false, s[1..]))
    else if s[0] == '/' && |s| > 1 && s[1] == '>' then Some(TagEnd([], true, s[2..]))
    else if White(s[0]) || s[0] == '/' then ReadAttrs(s[1..], ents)
    else
      var key := [s[0]] + Until(s[1..], KeyEnd);
      var after := SkipWhite(s[|key|..]);
      if after != "" && after[0] == '=' then
        var v := ReadValue(SkipWhite(after[1..]), ents);
        if v.None? then None else AddAttr(Attr(key, v.value.0), ReadAttrs(v.value.1, ents))
      else AddAttr(Attr(key, ""), ReadAttrs(after, ents))
  }

  function AddAttr(a: Attr, r: Option<TagEnd>): (r': Option<TagEnd>)
    ensures r'.Some? <==> r.Some?
    ensures r.Some? ==> r'.value.rest == r.value.rest
  {
    if r.None? then None else Some(r.value.(attrs := [a] + r.value.attrs))
  }

  /** The attributes of a tag: one whose name was there before is dropped. */
  function FirstOnly(attrs: seq<Attr>, seen: set<string>): seq<Attr> {
    if attrs == [] then []
    else if attrs[0].key in seen then FirstOnly(attrs[1..], seen)
    else [attrs[0]] + FirstOnly(attrs[1..], seen + {attrs[0].key})
  }

  /** A comment that starts after "<!", "<?" or "</": it runs to the next '>', or to "-->". */
  function AfterComment(s: string, dashes: bool): (rest: Option<string>)
    ensures rest.Some? ==> |rest.value| < |s|
  {
    if s == "" then None
    else if s[0] == '>' && !dashes then Some(s[1..])
    else if |s| >= 3 && s[..3] == "-->" then Some(s[3..])
    else AfterComment(s[1..], dashes)
  }

  /** The token of the markup that starts after a '<', and the text after it. */
  function ReadMarkup(s: string, ents: Entities): (r: Option<(Token, string)>)
    requires s != "" && Opener(s[0])
    ensures r.Some? ==> |r.value.1| < |s|
  {
    if Letter(s[0]) then
      var name := Until(s, NameEnd);
      var end := ReadAttrs(s[|name|..], ents);
      if end.None? then None
      else Some((if end.value.selfClosing then SelfClosing(Lower(name))
                 else StartTag(Lower(name), FirstOnly(end.value.attrs, {})),
                 end.value.rest))
    else if s[0] == '/' && |s| > 1 && Letter(s[1]) then
      var name := Until(s[1..], NameEnd);
      var end := ReadAttrs(s[1 + |name|..], ents);
      if end.None? then None else Some((EndTag(Lower(name)), end.value.rest))
    else
      var rest := AfterComment(s[1..], |s| >= 3 && s[..3] == "!--");
      if rest.None? then None else Some((Comment(""), rest.value))
  }

  function Texts(s: string): seq<Token> {
    seq(|s|, i requires 0 <= i < |s| => TextToken([s[i]]))
  }

  /** The tokens of a text, one text token per character; markup the text ends in is lost. */
  function Lex(s: string, ents: Entities): seq<Token>
    decreases |s|
  {
    if s == "" then []
    else if s[0] == '&' && EntityAt(s[1..], ents).Some? then
      var e := EntityAt(s[1..], ents).value;
      Texts(e.0) + Lex(s[1..][e.1..], ents)
    else if s[0] == '<' && |s| > 1 && Opener(s[1]) then
      var r := ReadMarkup(s[1..], ents);
      if r.None? then [] else [r.value.0] + Lex(r.value.1, ents)
    else [TextToken([s[0]])] + Lex(s[1..], ents)
  }

  // ---- Reading one atom ----

  lemma {:induction false} RunEnds(name: string, rest: string)
    requires forall c :: c in name ==> InRun(c)
    ensures EntityRun(name + ";" + rest) == name + ";"
    decreases |name|
  {
    if name == "" {
      assert name + ";" + rest == ";" + rest;
    } else {
      assert (name + ";" + rest)[1..] == name[1..] + ";" + rest;
      RunEnds(name[1..], rest);
      assert name[0] in name;
      assert [name[0]] + (name[1..] + ";") == name + ";";
    }
  }

  predicate Special(c: char) {
    c == '&' || c == '<' || c == '>'
  }

  function ReferenceOf(c: char): string
    requires Special(c)
  {
    if c == '&' then "amp" else if c == '<' then "lt" else "gt"
  }

  lemma WrittenCh(c: char)
    ensures EscapeText([c]) == if Special(c) then "&" + ReferenceOf(c) + ";" else [c]
  {
    assert [c][1..] == [];
  }

  lemma ReferenceReads(c: char, name: string, x: string, ents: Entities)
    requires Sane(ents) && Special(c) && name == ReferenceOf(c)
    ensures EntityAt(name + ";" + x, ents) == Some(([c], |name| + 1))
  {
    RunEnds(name, x);
    hide EntityRun;
    assert "amp" + ";" == "amp;" && "lt" + ";" == "lt;" && "gt" + ";" == "gt;";
  }

  /** An escaped character in front of x is one reference, or the character itself. */
  lemma EscapedHead(c: char, x: string, text: string, ents: Entities)
    requires Sane(ents) && text == EscapeText([c]) + x
    ensures Special(c) ==> text[0] == '&' && EntityAt(text[1..], ents) == Some(([c], |text| - |x| - 1))
    ensures Special(c) ==> text[1..][|text| - |x| - 1..] == x
    ensures !Special(c) ==> text == [c] + x && text[1..] == x
  {
    WrittenCh(c);
    hide EscapeText;
    hide EntityAt;
    if Special(c) {
      var name := ReferenceOf(c);
      assert text[1..] == name + ";" + x;
      ReferenceReads(c, name, x, ents);
      assert text[1..][|name| + 1..] == x;
    }
  }

  /** The reader takes a reference, a plain character, or markup. */
  lemma LexReference(text: string, e: (string, nat), ents: Entities)
    requires text != "" && text[0] == '&' && EntityAt(text[1..], ents) == Some(e)
    ensures Lex(text, ents) == Texts(e.0) + Lex(text[1..][e.1..], ents)
  {
  }

  predicate StartsMarkup(text: string) {
    |text| > 1 && text[0] == '<' && Opener(text[1])
  }

  lemma LexPlain(text: string, ents: Entities)
    requires text != "" && !(text[0] == '&' && EntityAt(text[1..], ents).Some?) && !StartsMarkup(text)
    ensures Lex(text, ents) == [TextToken([text[0]])] + Lex(text[1..], ents)
  {
  }

  lemma LexMarkup(text: string, ents: Entities)
    requires StartsMarkup(text)
    ensures var r := ReadMarkup(text[1..], ents);
      Lex(text, ents) == if r.None? then [] else [r.value.0] + Lex(r.value.1, ents)
  {
  }

  lemma LexCh(c: char, x: string, text: string, ents: Entities)
    requires Sane(ents) && text == EscapeText([c]) + x
    ensures Lex(text, ents) == [TextToken([c])] + Lex(x, ents)
  {
    EscapedHead(c, x, text, ents);
    if Special(c) {
      LexReference(text, ([c], |text| - |x| - 1), ents);
      assert Texts([c]) == [TextToken([c])];
    } else {
      LexPlain(text, ents);
    }
  }

  lemma DecodeCh(c: char, x: string, ents: Entities)
    requires Sane(ents)
    ensures Decode(EscapeText([c]) + x, ents) == [c] + Decode(x, ents)
  {
    EscapedHead(c, x, EscapeText([c]) + x, ents);
  }

  lemma {:induction false} DecodeEscaped(s: string, ents: Entities)
    requires Sane(ents)
    ensures Decode(EscapeText(s), ents) == s
  {
    if s != "" {
      DecodeEscaped(s[1..], ents);
      DecodeCh(s[0], EscapeText(s[1..]), ents);
      EscapeCons(s[0], s[1..], s);
    }
  }

  lemma EscapeCons(c: char, tail: string, s: string)
    requires s == [c] + tail
    ensures EscapeText(s) == EscapeText([c]) + EscapeText(tail)
  {
    assert [c][1..] == [] && s[1..] == tail;
  }

  lemma {:induction false} EscapeKeepsQuotes(s: string)
    ensures '"' in EscapeText(s) <==> '"' in s
    ensures '>' !in EscapeText(s)
  {
    if s != "" {
      EscapeKeepsQuotes(s[1..]);
      assert s == [s[0]] + s[1..];
      WrittenCh(s[0]);
      EscapeCons(s[0], s[1..], s);
    }
  }

  /** A written attribute value ends at its own closing quote if and only if it holds no
      double quote: escapeHTML leaves those alone. */
  lemma ValueReadsBackIff(val: string, rest: string)
    ensures UpTo(EscapeText(val) + "\"" + rest, '"') == EscapeText(val) <==> '"' !in val
  {
    UpToFirst(EscapeText(val), '"', rest);
    EscapeKeepsQuotes(val);
  }

  lemma {:induction false} UntilStops(a: string, b: string, s: string, stop: char -> bool)
    requires s == a + b && b != "" && stop(b[0]) && forall c :: c in a ==> !stop(c)
    ensures Until(s, stop) == a && s[|a|..] == b
    decreases |a|
  {
    if a != "" {
      assert s[1..] == a[1..] + b;
      UntilStops(a[1..], b, s[1..], stop);
    }
  }

  lemma {:induction false} SkipBeforeAttrs(s: string, ents: Entities)
    ensures ReadAttrs(SkipWhite(s), ents) == ReadAttrs(s, ents)
  {
    if s != "" && White(s[0]) {
      SkipBeforeAttrs(s[1..], ents);
    }
  }

  /** A key that ends where it is written to end. */
  predicate PlainKey(key: string) {
    key != "" && forall i :: 0 <= i < |key| ==> !KeyEnd(key[i])
  }

  /** An attribute as the sanitiser keeps it. */
  predicate PlainAttr(a: Attr) {
    PlainKey(a.key) && (a.key == "expandable" ==> a.val == "")
  }

  predicate PlainAttrs(attrs: seq<Attr>) {
    forall i :: 0 <= i < |attrs| ==> PlainAttr(attrs[i])
  }

  predicate QuoteFree(attrs: seq<Attr>) {
    forall i :: 0 <= i < |attrs| ==> '"' !in attrs[i].val
  }

  /** No name twice, and none that was seen before. */
  predicate OnceEach(attrs: seq<Attr>, seen: set<string>) {
    attrs == [] || (attrs[0].key !in seen && OnceEach(attrs[1..], seen + {attrs[0].key}))
  }

  /** Attributes that read as they are written. */
  predicate AttrsSafe(attrs: seq<Attr>) {
    QuoteFree(attrs) && OnceEach(attrs, {})
  }

  lemma {:induction false} FirstOnlyIff(attrs: seq<Attr>, seen: set<string>)
    ensures OnceEach(FirstOnly(attrs, seen), seen)
    ensures OnceEach(attrs, seen) ==> FirstOnly(attrs, seen) == attrs
  {
    if attrs != [] {
      var more, seen' := attrs[1..], seen + {attrs[0].key};
      if attrs[0].key in seen {
        FirstOnlyIff(more, seen);
      } else {
        FirstOnlyIff(more, seen');
        assert ([attrs[0]] + FirstOnly(more, seen'))[1..] == FirstOnly(more, seen');
      }
    }
  }

  lemma ReadKey(key: string, x: string, s: string)
    requires PlainKey(key) && x != "" && KeyEnd(x[0]) && s == key + x
    ensures s != "" && !NameEnd(s[0]) && [s[0]] + Until(s[1..], KeyEnd) == key && s[|key|..] == x
  {
    var tail := key[1..];
    assert key == [key[0]] + tail && s[0] == key[0];
    UntilStops(tail, x, s[1..], KeyEnd);
  }

  lemma ReadBareKey(key: string, x: string, s: string, ents: Entities)
    requires PlainKey(key) && x != "" && KeyEnd(x[0]) && s == key + x
    requires SkipWhite(x) == "" || SkipWhite(x)[0] != '='
    ensures ReadAttrs(s, ents) == AddAttr(Attr(key, ""), ReadAttrs(x, ents))
  {
    ReadKey(key, x, s);
    SkipBeforeAttrs(x, ents);
  }

  lemma ReadKeyValue(key: string, v: string, s: string, val: string, x: string, ents: Entities)
    requires PlainKey(key) && s == key + ("=" + v) && v != "" && !White(v[0])
    requires ReadValue(v, ents) == Some((val, x))
    ensures ReadAttrs(s, ents) == AddAttr(Attr(key, val), ReadAttrs(x, ents))
  {
    var after := "=" + v;
    ReadKey(key, after, s);
    KeyThenValue(s, key, after, v, val, x, ents);
  }

  lemma KeyThenValue(s: string, key: string, after: string, v: string, val: string, x: string, ents: Entities)
    requires s != "" && !NameEnd(s[0]) && [s[0]] + Until(s[1..], KeyEnd) == key && |key| <= |s| && s[|key|..] == after
    requires after == "=" + v && v != "" && !White(v[0]) && ReadValue(v, ents) == Some((val, x))
    ensures ReadAttrs(s, ents) == AddAttr(Attr(key, val), ReadAttrs(x, ents))
  {
    assert after[1..] == v && SkipWhite(after) == after && SkipWhite(v) == v;
  }

  /** One written attribute in front of x, where x is what follows in the tag. */
  lemma ReadAttr(a: Attr, x: string, s: string, ents: Entities)
    requires Sane(ents) && PlainAttr(a) && '"' !in a.val && s == WriteAttr(a) + x
    requires x != "" && (x[0] == '>' || x[0] == ' ')
    requires SkipWhite(x) != "" && SkipWhite(x)[0] != '='
    ensures ReadAttrs(s, ents) == AddAttr(a, ReadAttrs(x, ents))
  {
    if a.key == "expandable" {
      assert s == " " + (a.key + x);
      AfterBlank(s, a.key + x, ents);
      ReadBareKey(a.key, x, a.key + x, ents);
    } else {
      ReadValuedAttr(a.key, a.val, EscapeText(a.val), x, s, ents);
    }
  }

  lemma ReadValuedAttr(key: string, val: string, escaped: string, x: string, s: string, ents: Entities)
    requires Sane(ents) && PlainKey(key) && '"' !in val && escaped == EscapeText(val)
    requires s == " " + key + "=\"" + escaped + "\"" + x
    ensures ReadAttrs(s, ents) == AddAttr(Attr(key, val), ReadAttrs(x, ents))
  {
    var quoted := escaped + "\"" + x;
    var v := "\"" + quoted;
    var t := key + ("=" + v);
    assert s == " " + t;
    AfterBlank(s, t, ents);
    ReadQuoted(val, x, quoted, ents);
    ReadKeyValue(key, v, t, val, x, ents);
  }

  lemma AfterBlank(s: string, t: string, ents: Entities)
    requires s == " " + t
    ensures ReadAttrs(s, ents) == ReadAttrs(t, ents)
  {
    assert s[1..] == t;
  }

  lemma ReadQuoted(val: string, x: string, quoted: string, ents: Entities)
    requires Sane(ents) && '"' !in val && quoted == EscapeText(val) + "\"" + x
    ensures ReadValue("\"" + quoted, ents) == Some((val, x))
  {
    ValueReadsBackIff(val, x);
    DecodeEscaped(val, ents);
    assert ("\"" + quoted)[1..] == quoted && quoted[|EscapeText(val)| + 1..] == x;
  }

  lemma {:induction false} ReadWrittenAttrs(attrs: seq<Attr>, rest: string, s: string, ents: Entities)
    requires Sane(ents) && PlainAttrs(attrs) && QuoteFree(attrs)
    requires s == WriteAttrs(attrs) + ">" + rest
    ensures ReadAttrs(s, ents) == Some(TagEnd(attrs, false, rest))
    decreases |attrs|
  {
    if attrs == [] {
      assert s == ">" + rest;
    } else {
      hide ReadAttrs;
      hide WriteAttr;
      var a, more := attrs[0], attrs[1..];
      var x := WriteAttrs(more) + ">" + rest;
      ThreeParts(WriteAttr(a), WriteAttrs(more), ">", rest);
      ReadWrittenAttrs(more, rest, x, ents);
      TailStart(more, rest, x);
      ReadAttr(a, x, s, ents);
      assert attrs == [a] + more;
    }
  }

  lemma ThreeParts(a: string, b: string, c: string, d: string)
    ensures a + b + c + d == a + (b + c + d)
  {
  }

  /** After an attribute comes a blank and the next key, or the '>'. */
  lemma TailStart(attrs: seq<Attr>, rest: string, x: string)
    requires PlainAttrs(attrs) && x == WriteAttrs(attrs) + ">" + rest
    ensures x != "" && (x[0] == '>' || x[0] == ' ')
    ensures SkipWhite(x) != "" && SkipWhite(x)[0] != '='
  {
    if attrs != [] {
      var a := attrs[0];
      assert x[0] == ' ' && x[1] == a.key[0];
      assert !KeyEnd(a.key[0]);
      assert SkipWhite(x[1..]) == x[1..];
    }
  }

  /** A tag name that ends where it is written to end. */
  predicate PlainName(tag: string) {
    tag != "" && Letter(tag[0]) && Lower(tag) == tag && forall c :: c in tag ==> !NameEnd(c)
  }

  lemma AllowedChars(tag: string)
    requires tag in ALLOWED_TAGS
    ensures tag != "" && tag[0] != '-' && forall i :: 0 <= i < |tag| ==> 'a' <= tag[i] <= 'z' || tag[i] == '-'
  {
  }

  lemma AllowedName(tag: string)
    requires tag in ALLOWED_TAGS
    ensures PlainName(tag)
  {
    AllowedChars(tag);
    LowerFixesAllowed(tag);
  }

  /** A written tag without quotes in its values reads with every attribute's first value. */
  lemma LexWritten(t: OpenTag, rest: string, text: string, ents: Entities)
    requires Sane(ents) && t.tag in ALLOWED_TAGS && PlainAttrs(t.attrs) && QuoteFree(t.attrs)
    requires text == Write(Open(t)) + rest
    ensures Lex(text, ents) == [StartTag(t.tag, FirstOnly(t.attrs, {}))] + Lex(rest, ents)
  {
    AllowedName(t.tag);
    var x := WriteAttrs(t.attrs) + ">" + rest;
    ThreeParts("<" + t.tag, WriteAttrs(t.attrs), ">", rest);
    ReadWrittenAttrs(t.attrs, rest, x, ents);
    TailStart(t.attrs, rest, x);
    LexStart(t.tag, x, t.attrs, rest, text, ents);
  }

  lemma LexOpen(t: OpenTag, rest: string, text: string, ents: Entities)
    requires Sane(ents) && t.tag in ALLOWED_TAGS && PlainAttrs(t.attrs) && AttrsSafe(t.attrs)
    requires text == Write(Open(t)) + rest
    ensures Lex(text, ents) == [StartTag(t.tag, t.attrs)] + Lex(rest, ents)
  {
    FirstOnlyIff(t.attrs, {});
    LexWritten(t, rest, text, ents);
  }

  lemma StartMarkup(s: string, tag: string, x: string, attrs: seq<Attr>, rest: string, ents: Entities)
    requires PlainName(tag) && x != "" && NameEnd(x[0]) && s == tag + x
    requires ReadAttrs(x, ents) == Some(TagEnd(attrs, false, rest))
    ensures s != "" && Letter(s[0]) && ReadMarkup(s, ents) == Some((StartTag(tag, FirstOnly(attrs, {})), rest))
  {
    assert s[0] == tag[0];
    UntilStops(tag, x, s, NameEnd);
    hide ReadAttrs;
    hide FirstOnly;
  }

  lemma LexStart(tag: string, x: string, attrs: seq<Attr>, rest: string, text: string, ents: Entities)
    requires PlainName(tag) && x != "" && NameEnd(x[0]) && text == "<" + tag + x
    requires ReadAttrs(x, ents) == Some(TagEnd(attrs, false, rest))
    ensures Lex(text, ents) == [StartTag(tag, FirstOnly(attrs, {}))] + Lex(rest, ents)
  {
    var s := text[1..];
    assert s == tag + x && s[0] == tag[0];
    StartMarkup(s, tag, x, attrs, rest, ents);
    LexMarkup(text, ents);
    hide Lex;
    hide ReadMarkup;
    hide ReadAttrs;
    hide FirstOnly;
  }

  lemma LexClose(tag: string, rest: string, text: string, ents: Entities)
    requires tag in ALLOWED_TAGS && text == Write(Close(tag)) + rest
    ensures Lex(text, ents) == [EndTag(tag)] + Lex(rest, ents)
  {
    AllowedName(tag);
    var x := ">" + rest;
    assert text[1..] == "/" + tag + x;
    CloseMarkup(text[1..], tag, x, rest, ents);
    LexMarkup(text, ents);
  }

  lemma CloseMarkup(s: string, tag: string, x: string, rest: string, ents: Entities)
    requires PlainName(tag) && s == "/" + tag + x && x == ">" + rest
    ensures ReadMarkup(s, ents) == Some((EndTag(tag), rest))
  {
    assert s[1..] == tag + x && s[1] == tag[0];
    UntilStops(tag, x, s[1..], NameEnd);
    assert s[1 + |tag|..] == x && x[1..] == rest;
  }

  // ---- When the text reads as it was meant ----

  function SpellOne(a: Atom): Token {
    match a
    case Ch(c) => TextToken([c])
    case Raw(c) => TextToken([c])
    case Open(t) => StartTag(t.tag, t.attrs)
    case Close(tag) => EndTag(tag)
  }

  /** The tokens the atoms stand for. */
  function Spelled(atoms: seq<Atom>): seq<Token> {
    if atoms == [] then [] else [SpellOne(atoms[0])] + Spelled(atoms[1..])
  }

  /** What every output of the sanitiser looks like: clean tags, and unescaped names that are
      followed by an escaped '>' or by '/'. */
  predicate ShapedHead(a: Atom, rest: seq<Atom>) {
    match a
    case Ch(_) => true
    case Raw(_) => rest != [] && (rest[0].Raw? || rest[0] == Ch('>') || rest[0] == Ch('/'))
    case Open(t) => t.tag in ALLOWED_TAGS && PlainAttrs(t.attrs)
    case Close(tag) => tag in ALLOWED_TAGS
  }

  predicate Shaped(atoms: seq<Atom>) {
    atoms == [] || (ShapedHead(atoms[0], atoms[1..]) && Shaped(atoms[1..]))
  }

  /** A raw character that reads as itself: no '&' of a reference, no '<' of markup. */
  predicate NameHeadSafe(a: Atom, rest: string, ents: Entities) {
    (a == Raw('&') ==> EntityAt(rest, ents).None?)
    && (a == Raw('<') ==> rest == "" || !Opener(rest[0]))
  }

  predicate NamesSafe(atoms: seq<Atom>, ents: Entities) {
    atoms == [] || (NameHeadSafe(atoms[0], Markup(atoms[1..]), ents) && NamesSafe(atoms[1..], ents))
  }

  predicate TagsSafe(atoms: seq<Atom>) {
    forall i :: 0 <= i < |atoms| && atoms[i].Open? ==> AttrsSafe(atoms[i].t.attrs)
  }

  lemma LexRaw(c: char, rest: string, text: string, ents: Entities)
    requires text == [c] + rest && NameHeadSafe(Raw(c), rest, ents)
    ensures Lex(text, ents) == [TextToken([c])] + Lex(rest, ents)
  {
    assert text[1..] == rest;
    LexPlain(text, ents);
  }

  /** Text whose names and attributes are safe reads as meant. */
  lemma {:induction false} LexesBack(atoms: seq<Atom>, ents: Entities)
    requires Sane(ents) && Shaped(atoms) && NamesSafe(atoms, ents) && TagsSafe(atoms)
    ensures Lex(Markup(atoms), ents) == Spelled(atoms)
    decreases |atoms|
  {
    if atoms != [] {
      var a, rest, text := atoms[0], Markup(atoms[1..]), Markup(atoms);
      assert forall i :: 0 <= i < |atoms[1..]| ==> atoms[1..][i] == atoms[i + 1];
      LexesBack(atoms[1..], ents);
      match a
      case Ch(c) => LexCh(c, rest, text, ents);
      case Raw(c) => LexRaw(c, rest, text, ents);
      case Open(t) => LexOpen(t, rest, text, ents);
      case Close(tag) => LexClose(tag, rest, text, ents);
    }
  }

  // ---- And only then ----

  predicate Suffix(s: string, t: string) {
    |t| <= |s| && s[|s| - |t|..] == t
  }

  /** `rest` is what follows some '>' of s. */
  predicate AfterGt(s: string, rest: string) {
    |rest| < |s| && s[|s| - |rest|..] == rest && s[|s| - |rest| - 1] == '>'
  }

  lemma SuffixTrans(s: string, t: string, u: string)
    requires Suffix(s, t) && Suffix(t, u)
    ensures Suffix(s, u)
  {
  }

  lemma SuffixAfterGt(s: string, t: string, rest: string)
    requires Suffix(s, t) && AfterGt(t, rest)
    ensures AfterGt(s, rest)
  {
  }

  lemma {:induction false} SkipSuffix(s: string)
    ensures Suffix(s, SkipWhite(s))
  {
    if s != "" && White(s[0]) {
      SkipSuffix(s[1..]);
      SuffixTrans(s, s[1..], SkipWhite(s[1..]));
    }
  }

  lemma ValueSuffix(s: string, ents: Entities)
    ensures ReadValue(s, ents).Some? ==> Suffix(s, ReadValue(s, ents).value.1)
  {
  }

  /** A tag always ends after a '>'. */
  lemma {:induction false} AttrsEndAtGt(s: string, ents: Entities)
    requires ReadAttrs(s, ents).Some?
    ensures AfterGt(s, ReadAttrs(s, ents).value.rest)
    decreases |s|
  {
    if s[0] == '>' || (s[0] == '/' && |s| > 1 && s[1] == '>') {
    } else if White(s[0]) || s[0] == '/' {
      AttrsEndAtGt(s[1..], ents);
      SuffixAfterGt(s, s[1..], ReadAttrs(s, ents).value.rest);
    } else {
      var key := [s[0]] + Until(s[1..], KeyEnd);
      var after := SkipWhite(s[|key|..]);
      SkipSuffix(s[|key|..]);
      SuffixTrans(s, s[|key|..], after);
      if after != "" && after[0] == '=' {
        var w := SkipWhite(after[1..]);
        SkipSuffix(after[1..]);
        SuffixTrans(after, after[1..], w);
        ValueSuffix(w, ents);
        var x := ReadValue(w, ents).value.1;
        SuffixTrans(after, w, x);
        SuffixTrans(s, after, x);
        AttrsEndAtGt(x, ents);
        SuffixAfterGt(s, x, ReadAttrs(s, ents).value.rest);
      } else {
        AttrsEndAtGt(after, ents);
        SuffixAfterGt(s, after, ReadAttrs(s, ents).value.rest);
      }
    }
  }

  lemma {:induction false} CommentEndsAtGt(s: string, dashes: bool)
    requires AfterComment(s, dashes).Some?
    ensures AfterGt(s, AfterComment(s, dashes).value)
  {
    if !(s[0] == '>' && !dashes) && !(|s| >= 3 && s[..3] == "-->") {
      CommentEndsAtGt(s[1..], dashes);
      SuffixAfterGt(s, s[1..], AfterComment(s, dashes).value);
    }
  }

  lemma MarkupEndsAtGt(s: string, ents: Entities)
    requires s != "" && Opener(s[0]) && ReadMarkup(s, ents).Some?
    ensures AfterGt(s, ReadMarkup(s, ents).value.1)
    ensures !ReadMarkup(s, ents).value.0.TextToken?
  {
    var rest := ReadMarkup(s, ents).value.1;
    if Letter(s[0]) {
      var x := s[|Until(s, NameEnd)|..];
      AttrsEndAtGt(x, ents);
      SuffixAfterGt(s, x, rest);
    } else if s[0] == '/' && |s| > 1 && Letter(s[1]) {
      var x := s[1 + |Until(s[1..], NameEnd)|..];
      AttrsEndAtGt(x, ents);
      SuffixAfterGt(s, x, rest);
    } else {
      CommentEndsAtGt(s[1..], |s| >= 3 && s[..3] == "!--");
      SuffixAfterGt(s, s[1..], rest);
    }
  }

  lemma {:induction false} AttrsHoldNoGt(attrs: seq<Attr>)
    requires PlainAttrs(attrs)
    ensures '>' !in WriteAttrs(attrs)
  {
    if attrs != [] {
      AttrsHoldNoGt(attrs[1..]);
      EscapeKeepsQuotes(attrs[0].val);
      assert forall i :: 0 <= i < |attrs[0].key| ==> !KeyEnd(attrs[0].key[i]);
      assert '>' !in attrs[0].key;
    }
  }

  /** A '>' in a written atom is its last character. */
  lemma OnlyLastGt(a: Atom, rest: seq<Atom>)
    requires ShapedHead(a, rest)
    ensures Write(a) != "" && forall i :: 0 <= i < |Write(a)| - 1 ==> Write(a)[i] != '>'
  {
    match a
    case Ch(c) => WrittenCh(c);
    case Raw(_) =>
    case Open(t) =>
      AllowedName(t.tag);
      AttrsHoldNoGt(t.attrs);
      NoGtBefore("<" + t.tag, WriteAttrs(t.attrs));
    case Close(tag) =>
      AllowedName(tag);
      NoGtBefore("</", tag);
  }

  lemma NoGtBefore(a: string, b: string)
    requires '>' !in a && '>' !in b
    ensures forall i :: 0 <= i < |a + b + ">"| - 1 ==> (a + b + ">")[i] != '>'
  {
    assert forall i :: 0 <= i < |a| ==> a[i] in a;
    assert forall i :: 0 <= i < |b| ==> b[i] in b;
  }

  /** What follows a '>' of the text is the text of the atoms from some place on. */
  lemma {:induction false} GtBoundary(atoms: seq<Atom>, rest: string) returns (k: nat)
    requires Shaped(atoms) && AfterGt(Markup(atoms), rest)
    ensures 1 <= k <= |atoms| && rest == Markup(atoms[k..])
    decreases |atoms|
  {
    var w, tail := Write(atoms[0]), Markup(atoms[1..]);
    OnlyLastGt(atoms[0], atoms[1..]);
    GtPlace(w, tail, rest);
    if |rest| == |tail| {
      k := 1;
    } else {
      var j := GtBoundary(atoms[1..], rest);
      k := j + 1;
      assert atoms[1..][j..] == atoms[k..];
    }
  }

  lemma GtPlace(w: string, tail: string, rest: string)
    requires AfterGt(w + tail, rest) && forall i :: 0 <= i < |w| - 1 ==> w[i] != '>'
    ensures |rest| == |tail| ==> rest == tail
    ensures |rest| <= |tail|
    ensures |rest| < |tail| ==> AfterGt(tail, rest)
  {
    var s := w + tail;
    var i := |s| - |rest| - 1;
    assert i < |w| ==> s[i] == w[i];
    if |rest| <= |tail| {
      assert s[|s| - |rest|..] == tail[|tail| - |rest|..];
    }
  }

  /** A raw character is followed by another one, or by what ends a name. */
  predicate AfterRaw(atoms: seq<Atom>) {
    atoms != [] && (atoms[0].Raw? || atoms[0] == Ch('>') || atoms[0] == Ch('/'))
  }

  /** A reference that starts in a name ends in it. */
  lemma {:induction false} RunInRaw(atoms: seq<Atom>, n: nat)
    requires Shaped(atoms) && AfterRaw(atoms) && n <= |EntityRun(Markup(atoms))|
    ensures n <= |atoms| && Markup(atoms)[n..] == Markup(atoms[n..])
    ensures Count(atoms) == n + Count(atoms[n..])
    decreases n
  {
    if n > 0 {
      var tail := Markup(atoms[1..]);
      if !atoms[0].Raw? {
        WrittenCh(atoms[0].c);
      }
      assert Markup(atoms)[1..] == tail;
      if n > 1 {
        RunInRaw(atoms[1..], n - 1);
      }
      assert atoms[1..][n - 1..] == atoms[n..] && tail[n - 1..] == Markup(atoms)[n..];
    }
  }

  /** The characters of the atoms, and of a token stream. */
  function Count(atoms: seq<Atom>): nat {
    if atoms == [] then 0 else (if atoms[0].Ch? || atoms[0].Raw? then 1 else 0) + Count(atoms[1..])
  }

  function TextCount(toks: seq<Token>): nat {
    if toks == [] then 0 else (if toks[0].TextToken? then |toks[0].data| else 0) + TextCount(toks[1..])
  }

  lemma {:induction false} TextCountConcat(a: seq<Token>, b: seq<Token>)
    ensures TextCount(a + b) == TextCount(a) + TextCount(b)
    decreases |a|
  {
    if a == [] {
      assert a + b == b;
    } else {
      assert (a + b)[1..] == a[1..] + b;
      TextCountConcat(a[1..], b);
    }
  }

  lemma {:induction false} TextCountTexts(s: string)
    ensures TextCount(Texts(s)) == |s|
  {
    if s != "" {
      assert Texts(s)[1..] == Texts(s[1..]);
      TextCountTexts(s[1..]);
    }
  }

  lemma {:induction false} SpelledCount(atoms: seq<Atom>)
    ensures TextCount(Spelled(atoms)) == Count(atoms)
  {
    if atoms != [] {
      SpelledCount(atoms[1..]);
    }
  }

  lemma {:induction false} ShapedFrom(atoms: seq<Atom>, k: nat)
    requires Shaped(atoms) && k <= |atoms|
    ensures Shaped(atoms[k..])
  {
    if k > 0 {
      ShapedFrom(atoms[1..], k - 1);
      assert atoms[1..][k - 1..] == atoms[k..];
    }
  }

  lemma {:induction false} CountFrom(atoms: seq<Atom>, k: nat, ents: Entities)
    requires k <= |atoms|
    ensures Count(atoms[k..]) <= Count(atoms)
    ensures Count(atoms[k..]) == Count(atoms) && NamesSafe(atoms[k..], ents) ==> NamesSafe(atoms, ents)
  {
    if k > 0 {
      CountFrom(atoms[1..], k - 1, ents);
      assert atoms[1..][k - 1..] == atoms[k..];
    }
  }

  /** Markup that starts at the first atom, or right behind a raw '<', ends at an atom. */
  lemma MarkupPlace(atoms: seq<Atom>, s: string, r: Option<(Token, string)>, ents: Entities) returns (k: nat)
    requires Shaped(atoms) && s != "" && Opener(s[0]) && r == ReadMarkup(s, ents) && r.Some?
    requires Suffix(Markup(atoms), s)
    ensures 1 <= k <= |atoms| && r.value.1 == Markup(atoms[k..]) && !r.value.0.TextToken?
  {
    MarkupEndsAtGt(s, ents);
    SuffixAfterGt(Markup(atoms), s, r.value.1);
    k := GtBoundary(atoms, r.value.1);
  }

  /** What reading goes on with after the first atom, when that is markup. */
  lemma LexFromMarkup(atoms: seq<Atom>, text: string, ents: Entities) returns (more: bool, k: nat)
    requires Shaped(atoms) && text == Markup(atoms) && StartsMarkup(text)
    ensures more ==> 1 <= k <= |atoms| && TextCount(Lex(text, ents)) == TextCount(Lex(Markup(atoms[k..]), ents))
    ensures !more ==> Lex(text, ents) == []
  {
    LexMarkup(text, ents);
    var r := ReadMarkup(text[1..], ents);
    more, k := r.Some?, 0;
    if more {
      k := MarkupPlace(atoms, text[1..], r, ents);
      TextCountConcat([r.value.0], Lex(r.value.1, ents));
    }
  }

  ghost predicate CountsWithin(atoms: seq<Atom>, toks: seq<Token>, ents: Entities) {
    && TextCount(toks) <= Count(atoms)
    && (TextCount(toks) == Count(atoms) ==> NamesSafe(atoms, ents))
  }

  /** A raw '&' or '<' that does not read as itself costs a character. */
  lemma LexFromReference(atoms: seq<Atom>, rest: string, text: string, ents: Entities) returns (k: nat)
    requires Sane(ents) && Shaped(atoms) && atoms != [] && atoms[0] == Raw('&')
    requires rest == Markup(atoms[1..]) && text == Markup(atoms) && EntityAt(rest, ents).Some?
    ensures 1 <= k <= |atoms|
    ensures TextCount(Lex(text, ents)) - TextCount(Lex(Markup(atoms[k..]), ents)) < Count(atoms) - Count(atoms[k..])
  {
    var e := EntityAt(rest, ents).value;
    assert text[1..] == rest;
    LexReference(text, e, ents);
    RunInRaw(atoms[1..], e.1);
    k := e.1 + 1;
    assert atoms[1..][e.1..] == atoms[k..];
    TextCountConcat(Texts(e.0), Lex(rest[e.1..], ents));
    TextCountTexts(e.0);
    Utf16LenBounds(e.0);
  }

  lemma CountHead(atoms: seq<Atom>, c: char, got: seq<Token>, more: seq<Token>, ents: Entities)
    requires atoms != [] && (atoms[0] == Ch(c) || atoms[0] == Raw(c))
    requires NameHeadSafe(atoms[0], Markup(atoms[1..]), ents)
    requires got == [TextToken([c])] + more && CountsWithin(atoms[1..], more, ents)
    ensures CountsWithin(atoms, got, ents)
  {
    TextCountConcat([TextToken([c])], more);
  }

  /** Reading never finds more characters than were written, and fewer when a name is not
      safe. */
  lemma {:induction false} ReadsNoMore(atoms: seq<Atom>, ents: Entities)
    requires Sane(ents) && Shaped(atoms)
    ensures CountsWithin(atoms, Lex(Markup(atoms), ents), ents)
    decreases |atoms|
  {
    if atoms != [] {
      var a, rest, text := atoms[0], Markup(atoms[1..]), Markup(atoms);
      if (a.Ch? || a.Raw?) && NameHeadSafe(a, rest, ents) {
        ReadsNoMore(atoms[1..], ents);
        if a.Ch? { LexCh(a.c, rest, text, ents); } else { LexRaw(a.c, rest, text, ents); }
        CountHead(atoms, a.c, Lex(text, ents), Lex(rest, ents), ents);
      } else if a == Raw('&') {
        var k := LexFromReference(atoms, rest, text, ents);
        ShapedFrom(atoms, k);
        ReadsNoMore(atoms[k..], ents);
      } else {
        TagStarts(atoms, rest, text);
        var more, k := LexFromMarkup(atoms, text, ents);
        if more {
          ShapedFrom(atoms, k);
          ReadsNoMore(atoms[k..], ents);
          CountFrom(atoms, k, ents);
          FirstCounts(atoms, k, ents);
        } else {
          assert atoms[|atoms|..] == [];
          CountFrom(atoms, |atoms|, ents);
        }
      }
    }
  }

  lemma {:induction false} TagStarts(atoms: seq<Atom>, rest: string, text: string)
    requires Shaped(atoms) && atoms != [] && rest == Markup(atoms[1..]) && text == Markup(atoms)
    requires atoms[0].Open? || atoms[0].Close? || (atoms[0] == Raw('<') && rest != "" && Opener(rest[0]))
    ensures StartsMarkup(text)
  {
    match atoms[0]
    case Open(t) => AllowedName(t.tag);
    case _ =>
  }

  lemma FirstCounts(atoms: seq<Atom>, k: nat, ents: Entities)
    requires 1 <= k <= |atoms|
    ensures Count(atoms[k..]) + (if atoms[0].Raw? then 1 else 0) <= Count(atoms)
  {
    CountFrom(atoms[1..], k - 1, ents);
    assert atoms[1..][k - 1..] == atoms[k..];
  }

  lemma {:induction false} UpToPast(a: string, b: string, s: string, c: char)
    requires s == a + b && c !in a
    ensures UpTo(s, c) == a + UpTo(b, c)
    decreases |a|
  {
    if a == "" {
      assert s == b;
    } else {
      assert s[1..] == a[1..] + b;
      UpToPast(a[1..], b, s[1..], c);
      assert [a[0]] + (a[1..] + UpTo(b, c)) == a + UpTo(b, c);
    }
  }

  /** A value with a double quote is cut there. */
  lemma {:induction false} UpToQuote(val: string, tail: string, s: string)
    requires '"' in val && s == EscapeText(val) + tail
    ensures UpTo(s, '"') == EscapeText(UpTo(val, '"')) && |UpTo(s, '"')| < |s|
    ensures |UpTo(val, '"')| < |val|
    decreases |val|
  {
    var c, val' := val[0], val[1..];
    assert val == [c] + val';
    var head, more := EscapeText([c]), EscapeText(val') + tail;
    EscapeCons(c, val', val);
    assert s == head + more;
    if c == '"' {
      WrittenCh(c);
    } else {
      UpToQuote(val', tail, more);
      NoQuoteIn(c);
      UpToPast(head, more, s, '"');
      EscapeCons(c, UpTo(val', '"'), UpTo(val, '"'));
    }
  }

  lemma NoQuoteIn(c: char)
    requires c != '"'
    ensures '"' !in EscapeText([c])
  {
    WrittenCh(c);
  }

  lemma ReadCut(val: string, x: string, quoted: string, v: string, ents: Entities) returns (y: string)
    requires Sane(ents) && '"' in val && quoted == EscapeText(val) + ("\"" + x) && v == "\"" + quoted
    ensures ReadValue(v, ents) == Some((UpTo(val, '"'), y))
  {
    hide EscapeText;
    hide Decode;
    UpToQuote(val, "\"" + x, quoted);
    DecodeEscaped(UpTo(val, '"'), ents);
    hide UpTo;
    hide Sane;
    assert v[1..] == quoted;
    y := quoted[|UpTo(quoted, '"')| + 1..];
  }

  lemma CutReads(key: string, val: string, escaped: string, x: string, s: string, ents: Entities) returns (y: string)
    requires Sane(ents) && PlainKey(key) && '"' in val && escaped == EscapeText(val)
    requires s == " " + key + "=\"" + escaped + "\"" + x
    ensures ReadAttrs(s, ents) == AddAttr(Attr(key, UpTo(val, '"')), ReadAttrs(y, ents))
  {
    hide ReadAttrs;
    hide EscapeText;
    var quoted := escaped + ("\"" + x);
    var v := "\"" + quoted;
    var t := key + ("=" + v);
    assert s == " " + t;
    AfterBlank(s, t, ents);
    y := ReadCut(val, x, quoted, v, ents);
    ReadKeyValue(key, v, t, UpTo(val, '"'), y, ents);
  }

  lemma CutValueDiffers(a: Attr, x: string, s: string, ents: Entities)
    requires Sane(ents) && PlainAttr(a) && '"' in a.val && s == WriteAttr(a) + x
    ensures ReadAttrs(s, ents).Some? ==>
      ReadAttrs(s, ents).value.attrs != [] && ReadAttrs(s, ents).value.attrs[0] == Attr(a.key, UpTo(a.val, '"')) != a
  {
    var y := CutReads(a.key, a.val, EscapeText(a.val), x, s, ents);
    UpToQuote(a.val, "", EscapeText(a.val) + "");
  }

  lemma {:induction false} AttrsReadOnlyIf(attrs: seq<Attr>, seen: set<string>, rest: string, s: string,
                                           ents: Entities)
    requires Sane(ents) && PlainAttrs(attrs) && s == WriteAttrs(attrs) + ">" + rest && OnceEach(attrs, seen)
    requires ReadAttrs(s, ents).Some? && FirstOnly(ReadAttrs(s, ents).value.attrs, seen) == attrs
    ensures QuoteFree(attrs)
    decreases |attrs|
  {
    if attrs != [] {
      var a, more := attrs[0], attrs[1..];
      assert PlainAttr(a);
      var x := WriteAttrs(more) + ">" + rest;
      ThreeParts(WriteAttr(a), WriteAttrs(more), ">", rest);
      if '"' in a.val {
        CutValueDiffers(a, x, s, ents);
      } else {
        TailStart(more, rest, x);
        ReadAttr(a, x, s, ents);
        assert attrs == [a] + more;
        assert ([a] + ReadAttrs(x, ents).value.attrs)[1..] == ReadAttrs(x, ents).value.attrs;
        AttrsReadOnlyIf(more, seen + {a.key}, rest, x, ents);
      }
    }
  }

  /** What a tag reads as, when its name is written and x follows. */
  lemma {:induction false} LexTag(tag: string, x: string, text: string, ents: Entities)
    requires PlainName(tag) && x != "" && NameEnd(x[0]) && text == "<" + tag + x
    ensures StartsMarkup(text) && ReadMarkup(text[1..], ents).Some? ==>
      ReadAttrs(x, ents).Some? &&
      (ReadMarkup(text[1..], ents).value.0.StartTag? ==>
        ReadMarkup(text[1..], ents).value.0.attrs == FirstOnly(ReadAttrs(x, ents).value.attrs, {}))
    ensures StartsMarkup(text)
  {
    var s := text[1..];
    assert s == tag + x && s[0] == tag[0];
    UntilStops(tag, x, s, NameEnd);
  }

  lemma FirstRead(text: string, tok: Token, more: seq<Token>, ents: Entities)
    requires StartsMarkup(text) && Lex(text, ents) == [tok] + more
    ensures ReadMarkup(text[1..], ents).Some? && ReadMarkup(text[1..], ents).value.0 == tok
  {
    LexMarkup(text, ents);
    assert Lex(text, ents)[0] == tok;
    var r := ReadMarkup(text[1..], ents);
    assert r.Some? ==> ([r.value.0] + Lex(r.value.1, ents))[0] == r.value.0;
  }

  lemma OpenReadsOnlyIf(t: OpenTag, rest: string, text: string, more: seq<Token>, ents: Entities)
    requires Sane(ents) && t.tag in ALLOWED_TAGS && PlainAttrs(t.attrs) && text == Write(Open(t)) + rest
    requires Lex(text, ents) == [StartTag(t.tag, t.attrs)] + more
    ensures AttrsSafe(t.attrs)
  {
    var x := WriteAttrs(t.attrs) + ">" + rest;
    ThreeParts("<" + t.tag, WriteAttrs(t.attrs), ">", rest);
    TagReadsOnlyIf(t, x, rest, text, more, ents);
  }

  lemma TagReadsOnlyIf(t: OpenTag, x: string, rest: string, text: string, more: seq<Token>, ents: Entities)
    requires Sane(ents) && t.tag in ALLOWED_TAGS && PlainAttrs(t.attrs)
    requires x == WriteAttrs(t.attrs) + ">" + rest && text == "<" + t.tag + x
    requires Lex(text, ents) == [StartTag(t.tag, t.attrs)] + more
    ensures AttrsSafe(t.attrs)
  {
    AllowedName(t.tag);
    TailStart(t.attrs, rest, x);
    LexTag(t.tag, x, text, ents);
    FirstRead(text, StartTag(t.tag, t.attrs), more, ents);
    FirstOnlyIff(ReadAttrs(x, ents).value.attrs, {});
    AttrsReadOnlyIf(t.attrs, {}, rest, x, ents);
  }

  lemma {:induction false} QuotesFromReading(atoms: seq<Atom>, ents: Entities)
    requires Sane(ents) && Shaped(atoms) && NamesSafe(atoms, ents) && Lex(Markup(atoms), ents) == Spelled(atoms)
    ensures TagsSafe(atoms)
    decreases |atoms|
  {
    if atoms != [] {
      var a, rest, text := atoms[0], Markup(atoms[1..]), Markup(atoms);
      match a {
        case Ch(c) => LexCh(c, rest, text, ents);
        case Raw(c) => LexRaw(c, rest, text, ents);
        case Open(t) =>
          OpenReadsOnlyIf(t, rest, text, Spelled(atoms[1..]), ents);
          LexOpen(t, rest, text, ents);
        case Close(tag) => LexClose(tag, rest, text, ents);
      }
      TailRead(SpellOne(a), Lex(rest, ents), Spelled(atoms[1..]));
      QuotesFromReading(atoms[1..], ents);
      assert forall i :: 1 <= i < |atoms| ==> atoms[i] == atoms[1..][i - 1];
    }
  }

  lemma TailRead(tok: Token, a: seq<Token>, b: seq<Token>)
    requires [tok] + a == [tok] + b
    ensures a == b
  {
    assert ([tok] + a)[1..] == a && ([tok] + b)[1..] == b;
  }

  /** The text of a sanitised stream reads as the atoms it is made of if and only if no
      name holds a '<' that opens markup or an '&' that starts a reference, no attribute value
      holds a double quote, and no tag holds an attribute name twice. */
  lemma LexesBackIff(atoms: seq<Atom>, ents: Entities)
    requires Sane(ents) && Shaped(atoms)
    ensures Lex(Markup(atoms), ents) == Spelled(atoms) <==> NamesSafe(atoms, ents) && TagsSafe(atoms)
  {
    if NamesSafe(atoms, ents) && TagsSafe(atoms) {
      LexesBack(atoms, ents);
    } else if Lex(Markup(atoms), ents) == Spelled(atoms) {
      SpelledCount(atoms);
      ReadsNoMore(atoms, ents);
      QuotesFromReading(atoms, ents);
    }
  }
}