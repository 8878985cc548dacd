/** balanceAndSanitizeWithState and the chunk loop of SplitHTMLChunks (formatters.go).
    The HTML tokenizer is outside the model: the input is a sequence of tokens. The
    output is a sequence of atoms: a character written escaped, a character written as it
    is, an opening tag or a closing tag. Html.dfy has the text they stand for and says when
    that text can be read back. */
module Sanitizer {
  import opened Text

  datatype Attr = Attr(key: string, val: string)

  datatype Token =
    | TextToken(data: string)
    | StartTag(name: string, attrs: seq<Attr>)
    | EndTag(name: string)
    | SelfClosing(name: string)
    | Comment(data: string)
    | Doctype(data: string)

  datatype OpenTag = OpenTag(tag: string, attrs: seq<Attr>)

  type Stack = seq<OpenTag>

  /** Raw: a character of the name of a tag that is not allowed, which is not escaped. */
  datatype Atom = Ch(c: char) | Raw(c: char) | Open(t: OpenTag) | Close(tag: string)

  const ALLOWED_TAGS: set<string> := {
    "b", "strong", "i", "em", "u", "ins", "s", "strike", "del", "span", "tg-spoiler",
    "a", "tg-emoji", "code", "pre", "blockquote"
  }

  predicate KeepsAttr(tag: string, key: string) {
    || (tag == "a" && key == "href")
    || (tag == "tg-emoji" && key == "emoji-id")
    || (tag == "span" && key == "class")
    || (tag == "pre" && key == "class")
    || (tag == "code" && key == "class")
    || (tag == "blockquote" && key == "expandable")
  }

  /** The attributes written for a tag; `expandable` is written without a value. */
  function CleanAttrs(tag: string, attrs: seq<Attr>): seq<Attr> {
    if attrs == [] then []
    else
      var key := Lower(attrs[0].key);
      (if KeepsAttr(tag, key) then [Attr(key, if key == "expandable" then "" else attrs[0].val)] else [])
      + CleanAttrs(tag, attrs[1..])
  }

  function Chars(s: string): seq<Atom> {
    seq(|s|, i requires 0 <= i < |s| => Ch(s[i]))
  }

  function Raws(s: string): seq<Atom> {
    seq(|s|, i requires 0 <= i < |s| => Raw(s[i]))
  }

  /** A tag that is not allowed, shown between escaped angle brackets. */
  function Displayed(before: string, name: string, after: string): seq<Atom> {
    Chars("<" + before) + Raws(name) + Chars(after + ">")
  }

  function Opens(st: Stack): seq<Atom> {
    seq(|st|, i requires 0 <= i < |st| => Open(st[i]))
  }

  /** Closing tags for everything above depth k, innermost first. */
  function ClosesDownTo(st: Stack, k: nat): seq<Atom> {
    if |st| <= k then [] else [Close(st[|st| - 1].tag)] + ClosesDownTo(st[..|st| - 1], k)
  }

  /** Depth of the innermost open `tag`, or -1. */
  function Innermost(st: Stack, tag: string): (i: int)
    ensures -1 <= i < |st|
    ensures i >= 0 ==> st[i].tag == tag
    ensures forall j :: i < j < |st| ==> st[j].tag != tag
  {
    if st == [] then -1
    else if st[|st| - 1].tag == tag then |st| - 1
    else Innermost(st[..|st| - 1], tag)
  }

  // ---- What one token writes and how it moves the stack ----

  function Emit(tok: Token, st: Stack): seq<Atom> {
    match tok
    case TextToken(data) => Chars(data)
    case StartTag(name, attrs) =>
      var tag := Lower(name);
      if tag in ALLOWED_TAGS then [Open(OpenTag(tag, CleanAttrs(tag, attrs)))] else Displayed("", name, "")
    case EndTag(name) =>
      var tag := Lower(name);
      if tag in ALLOWED_TAGS then
        var i := Innermost(st, tag);
        if i >= 0 then ClosesDownTo(st, i) else []
      else Displayed("/", name, "")
    case SelfClosing(name) => Displayed("", Lower(name), "/")
    case Comment(_) => []
    case Doctype(_) => []
  }

  function Next(tok: Token, st: Stack): Stack {
    match tok
    case StartTag(name, attrs) =>
      var tag := Lower(name);
      if tag in ALLOWED_TAGS then st + [OpenTag(tag, CleanAttrs(tag, attrs))] else st
    case EndTag(name) =>
      var i := Innermost(st, Lower(name));
      if Lower(name) in ALLOWED_TAGS && i >= 0 then st[..i] else st
    case _ => st
  }

  /** `kept` are the attributes at the positions `at`, in order and with their values; no other
      position has an attribute that is kept for the tag. */
  predicate KeptAt(tag: string, attrs: seq<Attr>, kept: seq<Attr>, at: seq<nat>) {
    && |at| == |kept|
    && (forall j, k :: 0 <= j < k < |at| ==> at[j] < at[k])
    && (forall j :: 0 <= j < |at| ==> at[j] < |attrs| && WrittenFor(tag, attrs[at[j]], kept[j]))
    && (forall i :: 0 <= i < |attrs| && KeepsAttr(tag, Lower(attrs[i].key)) ==> i in at)
  }

  /** `out` is a kept key in lower case with the value that `given` has. */
  predicate WrittenFor(tag: string, given: Attr, out: Attr) {
    && KeepsAttr(tag, out.key) && out.key == Lower(given.key)
    && (out.key == "expandable" ==> out.val == "") && (out.key != "expandable" ==> out.val == given.val)
  }

  function OneOn(at: seq<nat>): seq<nat> {
    seq(|at|, j requires 0 <= j < |at| => at[j] + 1)
  }

  lemma {:induction false} CleanAttrsKeep(tag: string, attrs: seq<Attr>) returns (at: seq<nat>)
    ensures KeptAt(tag, attrs, CleanAttrs(tag, attrs), at)
  {
    at := [];
    if attrs != [] {
      var more := CleanAttrsKeep(tag, attrs[1..]);
      var key, rest := Lower(attrs[0].key), CleanAttrs(tag, attrs[1..]);
      if KeepsAttr(tag, key) {
        var first := Attr(key, if key == "expandable" then "" else attrs[0].val);
        at := [0] + OneOn(more);
        assert CleanAttrs(tag, attrs) == [first] + rest;
        KeptFirst(tag, attrs, first, rest, more);
      } else {
        at := OneOn(more);
        assert CleanAttrs(tag, attrs) == rest;
        KeptLater(tag, attrs, rest, more);
      }
    }
  }

  lemma KeptLater(tag: string, attrs: seq<Attr>, rest: seq<Attr>, more: seq<nat>)
    requires attrs != [] && KeptAt(tag, attrs[1..], rest, more) && !KeepsAttr(tag, Lower(attrs[0].key))
    ensures KeptAt(tag, attrs, rest, OneOn(more))
  {
    hide KeepsAttr, WrittenFor, Lower;
    forall i | 0 <= i < |attrs| && KeepsAttr(tag, Lower(attrs[i].key)) ensures i in OneOn(more) {
      assert attrs[1..][i - 1] == attrs[i];
      var j :| 0 <= j < |more| && more[j] == i - 1;
      assert OneOn(more)[j] == i;
    }
  }

  lemma KeptFirst(tag: string, attrs: seq<Attr>, first: Attr, rest: seq<Attr>, more: seq<nat>)
    requires attrs != [] && KeptAt(tag, attrs[1..], rest, more) && WrittenFor(tag, attrs[0], first)
    ensures KeptAt(tag, attrs, [first] + rest, [0] + OneOn(more))
  {
    hide KeepsAttr, WrittenFor, Lower;
    var at := [0] + OneOn(more);
    assert at[0] == 0 && forall j :: 1 <= j < |at| ==> at[j] == more[j - 1] + 1;
    forall i | 0 <= i < |attrs| && KeepsAttr(tag, Lower(attrs[i].key)) ensures i in at {
      if i > 0 {
        assert attrs[1..][i - 1] == attrs[i];
        var j :| 0 <= j < |more| && more[j] == i - 1;
        assert at[j + 1] == i;
      }
    }
    forall j | 0 <= j < |at| ensures at[j] < |attrs| && WrittenFor(tag, attrs[at[j]], ([first] + rest)[j]) {
      if j > 0 {
        assert attrs[1..][more[j - 1]] == attrs[at[j]];
      }
    }
  }

  /** Main result: an allowed start tag opens a tag of its name that carries every kept attribute
      with exactly the value it was given, in order, and no other attribute. */
  lemma StartTagOpens(name: string, attrs: seq<Attr>, st: Stack) returns (t: OpenTag, at: seq<nat>)
    requires Lower(name) in ALLOWED_TAGS
    ensures t.tag == Lower(name) && KeptAt(t.tag, attrs, t.attrs, at)
    ensures Next(StartTag(name, attrs), st) == st + [t] && Emit(StartTag(name, attrs), st) == [Open(t)]
  {
    t := OpenTag(Lower(name), CleanAttrs(Lower(name), attrs));
    at := CleanAttrsKeep(t.tag, attrs);
  }

  lemma {:induction false} ClosesAre(st: Stack, k: nat)
    requires k <= |st|
    ensures |ClosesDownTo(st, k)| == |st| - k
    ensures forall i :: 0 <= i < |st| - k ==> ClosesDownTo(st, k)[i] == Close(st[|st| - 1 - i].tag)
    decreases |st|
  {
    if |st| > k {
      ClosesAre(st[..|st| - 1], k);
    }
  }

  /** An allowed end tag closes the innermost open tag of its name, and before it everything that
      was opened inside, innermost first; without one it does nothing. */
  lemma EndTagCloses(name: string, st: Stack, i: nat)
    requires Lower(name) in ALLOWED_TAGS && i <= |st|
    requires i < |st| ==> st[i].tag == Lower(name)
    requires forall j :: i < j < |st| ==> st[j].tag != Lower(name)
    requires i == |st| ==> forall j :: 0 <= j < |st| ==> st[j].tag != Lower(name)
    ensures Next(EndTag(name), st) == st[..i]
    ensures |Emit(EndTag(name), st)| == |st| - i
    ensures forall k :: 0 <= k < |st| - i ==> Emit(EndTag(name), st)[k] == Close(st[|st| - 1 - k].tag)
  {
    ClosesAre(st, i);
    assert i < |st| ==> Innermost(st, Lower(name)) == i;
    assert st[..|st|] == st;
  }

  function EmitAll(toks: seq<Token>, st: Stack): seq<Atom> {
    if toks == [] then [] else Emit(toks[0], st) + EmitAll(toks[1..], Next(toks[0], st))
  }

  function Final(toks: seq<Token>, st: Stack): Stack {
    if toks == [] then st else Final(toks[1..], Next(toks[0], st))
  }

  function Sanitized(toks: seq<Token>, initial: Stack): seq<Atom> {
    Opens(initial) + EmitAll(toks, initial) + ClosesDownTo(Final(toks, initial), 0)
  }

  /** The loop before token n: what is written so far, completed by what the rest emits. */
  ghost predicate Emitting(toks: seq<Token>, initial: Stack, n: nat, out: seq<Atom>, stack: Stack) {
    && n <= |toks|
    && out + EmitAll(toks[n..], stack) == Opens(initial) + EmitAll(toks, initial)
    && Final(toks[n..], stack) == Final(toks, initial)
  }

  lemma EmittingStep(toks: seq<Token>, initial: Stack, n: nat, out: seq<Atom>, stack: Stack)
    requires Emitting(toks, initial, n, out, stack) && n < |toks|
    ensures Emitting(toks, initial, n + 1, out + Emit(toks[n], stack), Next(toks[n], stack))
  {
    var written, rest := Emit(toks[n], stack), EmitAll(toks[n + 1..], Next(toks[n], stack));
    assert toks[n..][1..] == toks[n + 1..];
    assert out + (written + rest) == (out + written) + rest;
  }

  /** The loop of balanceAndSanitizeWithState. */
  method BalanceAndSanitize(toks: seq<Token>, initial: Stack) returns (out: seq<Atom>, unclosed: Stack)
    ensures out == Sanitized(toks, initial)
    ensures unclosed == Final(toks, initial)
  {
    out := [];
    for k := 0 to |initial|
      invariant out == Opens(initial[..k])
    {
      out := out + [Open(initial[k])];
      assert Opens(initial[..k + 1]) == Opens(initial[..k]) + [Open(initial[k])];
    }
    assert initial[..|initial|] == initial;
    var stack := initial;
    var n := 0;
    assert toks[0..] == toks;
    while n < |toks|
      invariant Emitting(toks, initial, n, out, stack)
    {
      EmittingStep(toks, initial, n, out, stack);
      var written, after := WriteToken(toks[n], stack);
      out, stack := out + written, after;
      n := n + 1;
    }
    assert out + [] == out;
    unclosed := stack;
    var closes := CloseDown(stack, 0);
    out := out + closes;
  }

  /** The body of that loop: the switch over the token kinds. */
  method WriteToken(tok: Token, stack: Stack) returns (written: seq<Atom>, after: Stack)
    ensures written == Emit(tok, stack)
    ensures after == Next(tok, stack)
  {
    written, after := [], stack;
    match tok {
      case TextToken(data) =>
        written := Chars(data);
      case StartTag(name, attrs) =>
        var tag := Lower(name);
        if tag in ALLOWED_TAGS {
          var o := OpenTag(tag, CleanAttrs(tag, attrs));
          after := stack + [o];
          written := [Open(o)];
        } else {
          written := Displayed("", name, "");
        }
      case EndTag(name) =>
        var tag := Lower(name);
        if tag in ALLOWED_TAGS {
          var idx := FindInnermost(stack, tag);
          if idx != -1 {
            written := CloseDown(stack, idx);
            after := stack[..idx];
          }
        } else {
          written := Displayed("/", name, "");
        }
      case SelfClosing(name) =>
        written := Displayed("", Lower(name), "/");
      case Comment(_) =>
      case Doctype(_) =>
    }
  }

  method FindInnermost(stack: Stack, tag: string) returns (idx: int)
    ensures idx == Innermost(stack, tag)
  {
    idx := |stack| - 1;
    assert stack[..|stack|] == stack;
    while idx >= 0 && stack[idx].tag != tag
      invariant -1 <= idx < |stack|
      invariant Innermost(stack[..idx + 1], tag) == Innermost(stack, tag)
    {
      assert stack[..idx + 1][..idx] == stack[..idx];
      idx := idx - 1;
    }
  }

  method CloseDown(stack: Stack, idx: nat) returns (out: seq<Atom>)
    requires idx <= |stack|
    ensures out == ClosesDownTo(stack, idx)
  {
    out := [];
    var i := |stack|;
    assert stack[..|stack|] == stack;
    while i > idx
      invariant idx <= i <= |stack|
      invariant out + ClosesDownTo(stack[..i], idx) == ClosesDownTo(stack, idx)
    {
      i := i - 1;
      assert stack[..i + 1][..i] == stack[..i];
      out := out + [Close(stack[i].tag)];
    }
  }

  // ---- Reading HTML: the reference semantics ----

  /** What a reader of well-nested atoms sees: every character with the tags around it,
      and the tags left open; Broken when a closing tag does not match the innermost
      open tag. */
  datatype Reading = Broken | Reading(open: Stack, seen: seq<(char, Stack)>)

  function Read(atoms: seq<Atom>, st: Stack): Reading
    decreases |atoms|
  {
    if atoms == [] then Reading(st, [])
    else match atoms[0]
      case Ch(c) => (match Read(atoms[1..], st)
                     case Broken => Broken
                     case Reading(o, s) => Reading(o, [(c, st)] + s))
      case Raw(c) => (match Read(atoms[1..], st)
                      case Broken => Broken
                      case Reading(o, s) => Reading(o, [(c, st)] + s))
      case Open(t) => Read(atoms[1..], st + [t])
      case Close(tag) =>
        if st != [] && st[|st| - 1].tag == tag then Read(atoms[1..], st[..|st| - 1]) else Broken
  }

  /** What the input stream means: an end tag closes the innermost tag of its name and
      everything opened inside it, an unmatched one nothing, and every tag that is not
      allowed is visible as text. */
  function Meaning(toks: seq<Token>, st: Stack): seq<(char, Stack)> {
    if toks == [] then []
    else Seen(Shown(toks[0]), st) + Meaning(toks[1..], Next(toks[0], st))
  }

  function Shown(tok: Token): string {
    match tok
    case TextToken(data) => data
    case StartTag(name, _) => if Lower(name) in ALLOWED_TAGS then "" else "<" + name + ">"
    case EndTag(name) => if Lower(name) in ALLOWED_TAGS then "" else "</" + name + ">"
    case SelfClosing(name) => "<" + Lower(name) + "/>"
    case Comment(_) => ""
    case Doctype(_) => ""
  }

  function Seen(s: string, st: Stack): seq<(char, Stack)> {
    seq(|s|, i requires 0 <= i < |s| => (s[i], st))
  }

  function Then(a: Reading, b: Reading): Reading {
    if a.Broken? || b.Broken? then Broken else Reading(b.open, a.seen + b.seen)
  }

  lemma {:induction false} ReadConcat(a: seq<Atom>, b: seq<Atom>, st: Stack)
    ensures Read(a, st).Broken? ==> Read(a + b, st).Broken?
    ensures !Read(a, st).Broken? ==> Read(a + b, st) == Then(Read(a, st), Read(b, Read(a, st).open))
    decreases |a|
  {
    if a == [] {
      assert a + b == b;
    } else {
      assert (a + b)[1..] == a[1..] + b;
      match a[0] {
        case Ch(c) => ReadConcat(a[1..], b, st);
        case Raw(c) => ReadConcat(a[1..], b, st);
        case Open(t) => ReadConcat(a[1..], b, st + [t]);
        case Close(tag) =>
          if st != [] && st[|st| - 1].tag == tag {
            ReadConcat(a[1..], b, st[..|st| - 1]);
          }
      }
    }
  }

  lemma {:induction false} ReadChars(s: string, st: Stack)
    ensures Read(Chars(s), st) == Reading(st, Seen(s, st))
    decreases |s|
  {
    if s != [] {
      assert Chars(s)[1..] == Chars(s[1..]);
      assert Seen(s, st) == [(s[0], st)] + Seen(s[1..], st);
      ReadChars(s[1..], st);
    }
  }

  lemma {:induction false} ReadRaws(s: string, st: Stack)
    ensures Read(Raws(s), st) == Reading(st, Seen(s, st))
    decreases |s|
  {
    if s != [] {
      assert Raws(s)[1..] == Raws(s[1..]);
      assert Seen(s, st) == [(s[0], st)] + Seen(s[1..], st);
      ReadRaws(s[1..], st);
    }
  }

  lemma ReadDisplayed(before: string, name: string, after: string, shown: string, st: Stack)
    requires shown == "<" + before + name + after + ">"
    ensures Read(Displayed(before, name, after), st) == Reading(st, Seen(shown, st))
  {
    var a, b := "<" + before, after + ">";
    ReadChars(a, st);
    ReadRaws(name, st);
    ReadChars(b, st);
    ReadConcat(Chars(a), Raws(name), st);
    ReadConcat(Chars(a) + Raws(name), Chars(b), st);
    assert Seen(a, st) + Seen(name, st) + Seen(b, st) == Seen(shown, st);
  }

  lemma {:induction false} ReadOpens(ts: Stack, st: Stack)
    ensures Read(Opens(ts), st) == Reading(st + ts, [])
    decreases |ts|
  {
    if ts == [] {
      assert st + ts == st;
    } else {
      assert Opens(ts)[1..] == Opens(ts[1..]);
      assert st + ts == (st + [ts[0]]) + ts[1..];
      ReadOpens(ts[1..], st + [ts[0]]);
    }
  }

  lemma {:induction false} ReadCloses(st: Stack, k: nat)
    requires k <= |st|
    ensures Read(ClosesDownTo(st, k), st) == Reading(st[..k], [])
    decreases |st|
  {
    if |st| == k {
      assert st[..k] == st;
    } else {
      ReadCloses(st[..|st| - 1], k);
      assert st[..|st| - 1][..k] == st[..k];
      assert ClosesDownTo(st, k)[1..] == ClosesDownTo(st[..|st| - 1], k);
    }
  }

  lemma ReadEmitTag(tok: Token, st: Stack)
    requires (tok.StartTag? || tok.EndTag?) && Lower(tok.name) in ALLOWED_TAGS
    ensures Read(Emit(tok, st), st) == Reading(Next(tok, st), [])
  {
    var tag := Lower(tok.name);
    if tok.StartTag? {
      var o := OpenTag(tag, CleanAttrs(tag, tok.attrs));
      ReadOpens([o], st);
      assert Opens([o]) == [Open(o)];
    } else if Innermost(st, tag) >= 0 {
      ReadCloses(st, Innermost(st, tag));
    }
  }

  lemma ReadEmitOther(tok: Token, st: Stack)
    requires tok.SelfClosing? || ((tok.StartTag? || tok.EndTag?) && Lower(tok.name) !in ALLOWED_TAGS)
    ensures Read(Emit(tok, st), st) == Reading(Next(tok, st), Seen(Shown(tok), st))
  {
    hide Read, ClosesDownTo, CleanAttrs;
    match tok
    case StartTag(name, _) => ReadDisplayed("", name, "", Shown(tok), st);
    case EndTag(name) => ReadDisplayed("/", name, "", Shown(tok), st);
    case SelfClosing(name) => ReadDisplayed("", Lower(name), "/", Shown(tok), st);
  }

  lemma ReadEmit(tok: Token, st: Stack)
    ensures Read(Emit(tok, st), st) == Reading(Next(tok, st), Seen(Shown(tok), st))
  {
    if (tok.StartTag? || tok.EndTag?) && Lower(tok.name) in ALLOWED_TAGS {
      ReadEmitTag(tok, st);
    } else if tok.StartTag? || tok.EndTag? || tok.SelfClosing? {
      ReadEmitOther(tok, st);
    } else if tok.TextToken? {
      ReadChars(tok.data, st);
    }
  }

  /** What is not an allowed tag is shown as text, in its own brackets, and opens and closes nothing;
      comments and doctypes are dropped. */
  lemma OthersShown(name: string, attrs: seq<Attr>, data: string, st: Stack)
    ensures Read(Emit(TextToken(data), st), st) == Reading(st, Seen(data, st))
    ensures Read(Emit(SelfClosing(name), st), st) == Reading(st, Seen("<" + Lower(name) + "/>", st))
    ensures Emit(Comment(data), st) == [] == Emit(Doctype(data), st)
    ensures Lower(name) !in ALLOWED_TAGS ==>
      && Read(Emit(StartTag(name, attrs), st), st) == Reading(st, Seen("<" + name + ">", st))
      && Read(Emit(EndTag(name), st), st) == Reading(st, Seen("</" + name + ">", st))
  {
    ReadEmit(TextToken(data), st);
    ReadEmit(SelfClosing(name), st);
    ReadEmit(StartTag(name, attrs), st);
    ReadEmit(EndTag(name), st);
  }

  lemma {:induction false} ReadEmitAll(toks: seq<Token>, st: Stack)
    ensures Read(EmitAll(toks, st), st) == Reading(Final(toks, st), Meaning(toks, st))
    decreases |toks|
  {
    if toks != [] {
      ReadEmit(toks[0], st);
      ReadEmitAll(toks[1..], Next(toks[0], st));
      ReadConcat(Emit(toks[0], st), EmitAll(toks[1..], Next(toks[0], st)), st);
    }
  }

  /** Whatever the token stream and the starting stack, the output is a well-nested word of
      atoms, shows exactly what the input means, and the returned stack is what a reader has
      open just before the closing tags written at the end. */
  lemma SanitizedReads(toks: seq<Token>, st: Stack)
    ensures Read(Sanitized(toks, st), []) == Reading([], Meaning(toks, st))
    ensures Read(Opens(st) + EmitAll(toks, st), []) == Reading(Final(toks, st), Meaning(toks, st))
    ensures Read(ClosesDownTo(Final(toks, st), 0), Final(toks, st)) == Reading([], [])
  {
    hide Read, EmitAll, Final, Meaning, ClosesDownTo, Opens;
    ReadOpens(st, []);
    assert [] + st == st;
    ReadEmitAll(toks, st);
    ReadConcat(Opens(st), EmitAll(toks, st), []);
    ReadCloses(Final(toks, st), 0);
    ReadConcat(Opens(st) + EmitAll(toks, st), ClosesDownTo(Final(toks, st), 0), []);
  }

  lemma {:induction false} MeaningConcat(a: seq<Token>, b: seq<Token>, st: Stack)
    ensures Meaning(a + b, st) == Meaning(a, st) + Meaning(b, Final(a, st))
    ensures Final(a + b, st) == Final(b, Final(a, st))
    decreases |a|
  {
    hide Shown;
    hide Seen;
    hide Next;
    if a == [] {
      assert a + b == b;
    } else {
      assert (a + b)[1..] == a[1..] + b;
      MeaningConcat(a[1..], b, Next(a[0], st));
    }
  }

  const PAIRS := {("a", "href"), ("tg-emoji", "emoji-id"), ("span", "class"), ("pre", "class"), ("code", "class")}

  /** The attributes that Telegram understands are kept, and no others. */
  lemma KeptPairs(tag: string, a: Attr)
    ensures CleanAttrs(tag, [a]) != []
       <==> (tag, Lower(a.key)) in PAIRS || (tag == "blockquote" && Lower(a.key) == "expandable")
  {
    assert [a][1..] == [];
  }

  lemma KeptAlone(tag: string, attrs: seq<Attr>)
    requires attrs == [] || (|attrs| == 1 && (tag, attrs[0].key) in PAIRS)
    ensures CleanAttrs(tag, attrs) == attrs
  {
    if attrs != [] {
      LowerFixesKeptKeys(tag, attrs[0].key);
      assert attrs[1..] == [] && attrs == [Attr(attrs[0].key, attrs[0].val)];
    }
  }

  lemma MeaningOne(tok: Token, st: Stack)
    ensures Meaning([tok], st) == Seen(Shown(tok), st) && Final([tok], st) == Next(tok, st)
  {
    assert [tok][1..] == [];
  }

  lemma MeaningTwo(a: Token, b: Token, st: Stack)
    ensures Meaning([a, b], st) == Seen(Shown(a), st) + Seen(Shown(b), Next(a, st))
    ensures Final([a, b], st) == Next(b, Next(a, st))
  {
    MeaningOne(a, st);
    MeaningOne(b, Next(a, st));
    MeaningConcat([a], [b], st);
    assert [a] + [b] == [a, b];
  }

  predicate TelegramTag(tag: string) {
    tag in {"b", "strong", "i", "em", "u", "ins", "s", "strike", "del", "span", "tg-spoiler", "a", "tg-emoji", "code",
            "pre", "blockquote"}
  }

  /** Such a tag opens itself, with its attribute, and closes itself again, and is not shown. */
  lemma TelegramTagMoves(tag: string, attrs: seq<Attr>, st: Stack)
    requires TelegramTag(tag) && (attrs == [] || (|attrs| == 1 && (tag, attrs[0].key) in PAIRS))
    ensures Next(StartTag(tag, attrs), st) == st + [OpenTag(tag, attrs)] && Shown(StartTag(tag, attrs)) == ""
    ensures Next(EndTag(tag), st + [OpenTag(tag, attrs)]) == st && Shown(EndTag(tag)) == ""
  {
    LowerFixesAllowed(tag);
    KeptAlone(tag, attrs);
    hide CleanAttrs, Lower;
    EndTagCloses(tag, st + [OpenTag(tag, attrs)], |st|);
    assert (st + [OpenTag(tag, attrs)])[..|st|] == st;
  }

  /** Every tag that Telegram understands keeps its text under itself, with its attribute. */
  lemma AllowedSurvive(tag: string, attrs: seq<Attr>, s: string, st: Stack)
    requires TelegramTag(tag) && (attrs == [] || (|attrs| == 1 && (tag, attrs[0].key) in PAIRS))
    ensures var toks := [StartTag(tag, attrs), TextToken(s), EndTag(tag)];
      Meaning(toks, st) == Seen(s, st + [OpenTag(tag, attrs)]) && Final(toks, st) == st
  {
    var start, text, end, inside := StartTag(tag, attrs), TextToken(s), EndTag(tag), st + [OpenTag(tag, attrs)];
    TelegramTagMoves(tag, attrs, st);
    TextStays(s, inside);
    NothingSeen(st);
    NothingSeen(inside);
    MeaningTwo(start, text, st);
    MeaningOne(end, inside);
    MeaningConcat([start, text], [end], st);
    assert [start, text] + [end] == [start, text, end];
  }

  lemma TextStays(s: string, st: Stack)
    ensures Next(TextToken(s), st) == st && Shown(TextToken(s)) == s
  {
  }

  lemma NothingSeen(st: Stack)
    ensures Seen("", st) == []
  {
  }

  /** Carrying the open-tag stack across a cut preserves the reading of the atoms. */
  lemma {:induction false} CarryPreservesMeaning(a: seq<Token>, b: seq<Token>, st: Stack)
    ensures Final(b, Final(a, st)) == Final(a + b, st)
    ensures Read(Sanitized(a, st) + Sanitized(b, Final(a, st)), []) == Read(Sanitized(a + b, st), [])
  {
    MeaningConcat(a, b, st);
    SanitizedReads(a, st);
    SanitizedReads(b, Final(a, st));
    SanitizedReads(a + b, st);
    ReadConcat(Sanitized(a, st), Sanitized(b, Final(a, st)), []);
  }

  // ---- Only allowed tags; sanitising again changes nothing ----

  predicate Clean(t: OpenTag) {
    t.tag in ALLOWED_TAGS && CleanAttrs(t.tag, t.attrs) == t.attrs
  }

  predicate AllClean(st: Stack) {
    forall t :: t in st ==> Clean(t)
  }

  ghost predicate OnlyCleanTags(atoms: seq<Atom>) {
    forall t :: Open(t) in atoms ==> Clean(t)
  }

  lemma {:induction false} CleanAttrsIdempotent(tag: string, attrs: seq<Attr>)
    ensures CleanAttrs(tag, CleanAttrs(tag, attrs)) == CleanAttrs(tag, attrs)
  {
    if attrs != [] {
      CleanAttrsIdempotent(tag, attrs[1..]);
      var key := Lower(attrs[0].key);
      if KeepsAttr(tag, key) {
        var a := Attr(key, if key == "expandable" then "" else attrs[0].val);
        LowerFixesKeptKeys(tag, key);
        assert CleanAttrs(tag, attrs) == [a] + CleanAttrs(tag, attrs[1..]);
        assert CleanAttrs(tag, attrs)[1..] == CleanAttrs(tag, attrs[1..]);
      } else {
        assert CleanAttrs(tag, attrs) == CleanAttrs(tag, attrs[1..]);
      }
    }
  }

  lemma LowerFixesKeptKeys(tag: string, key: string)
    requires KeepsAttr(tag, key)
    ensures Lower(key) == key
  {
    assert key == "href" || key == "emoji-id" || key == "class" || key == "expandable";
  }

  lemma LowerFixesAllowed(tag: string)
    requires tag in ALLOWED_TAGS
    ensures Lower(tag) == tag
  {
  }

  lemma {:induction false} EmitsOnlyClean(toks: seq<Token>, st: Stack)
    requires AllClean(st)
    ensures OnlyCleanTags(EmitAll(toks, st)) && AllClean(Final(toks, st))
    decreases |toks|
  {
    if toks != [] {
      match toks[0] {
        case StartTag(name, attrs) => CleanAttrsIdempotent(Lower(name), attrs);
        case EndTag(name) =>
          if Lower(name) in ALLOWED_TAGS && Innermost(st, Lower(name)) >= 0 {
            ClosesHoldNoOpen(st, Innermost(st, Lower(name)));
          }
        case _ =>
      }
      assert OnlyCleanTags(Emit(toks[0], st));
      EmitsOnlyClean(toks[1..], Next(toks[0], st));
    }
  }

  lemma {:induction false} ClosesHoldNoOpen(st: Stack, k: nat)
    ensures forall t :: Open(t) !in ClosesDownTo(st, k)
    decreases |st|
  {
    if |st| > k {
      ClosesHoldNoOpen(st[..|st| - 1], k);
    }
  }

  lemma SanitizedOnlyCleanTags(toks: seq<Token>, st: Stack)
    requires AllClean(st)
    ensures OnlyCleanTags(Sanitized(toks, st)) && AllClean(Final(toks, st))
  {
    EmitsOnlyClean(toks, st);
    ClosesHoldNoOpen(Final(toks, st), 0);
    assert OnlyCleanTags(Opens(st));
  }

  predicate Spells(tok: Token) {
    tok.TextToken? || tok.StartTag? || tok.EndTag?
  }

  /** The atoms with every character escaped, as a second pass writes them. */
  function Escaped(atoms: seq<Atom>): seq<Atom> {
    seq(|atoms|, i requires 0 <= i < |atoms| => if atoms[i].Raw? then Ch(atoms[i].c) else atoms[i])
  }

  /** `toks` spells the atoms: text may be divided into tokens in any way. */
  ghost predicate ReadsBackAs(atoms: seq<Atom>, toks: seq<Token>) {
    (forall t :: t in toks ==> Spells(t)) && Written(toks) == Escaped(atoms)
  }

  function WrittenOne(tok: Token): seq<Atom> {
    match tok
    case TextToken(data) => Chars(data)
    case StartTag(name, attrs) => [Open(OpenTag(name, attrs))]
    case EndTag(name) => [Close(name)]
    case _ => []
  }

  function Written(toks: seq<Token>): seq<Atom> {
    if toks == [] then [] else WrittenOne(toks[0]) + Written(toks[1..])
  }

  /** The first token of a well-nested clean word is written as it is, and the rest is such
      a word from the next stack. */
  ghost predicate HeadFixed(tok: Token, w: seq<Atom>, st: Stack, all: seq<Atom>)
    requires !Read(all, st).Broken?
  {
    && Emit(tok, st) == WrittenOne(tok)
    && AllClean(Next(tok, st)) && OnlyCleanTags(w)
    && !Read(w, Next(tok, st)).Broken? && Read(w, Next(tok, st)).open == Read(all, st).open
  }

  lemma TextFixed(tok: Token, w: seq<Atom>, st: Stack, all: seq<Atom>)
    requires tok.TextToken? && all == WrittenOne(tok) + w
    requires AllClean(st) && OnlyCleanTags(all) && !Read(all, st).Broken?
    ensures HeadFixed(tok, w, st, all)
  {
    ReadChars(tok.data, st);
    ReadConcat(Chars(tok.data), w, st);
    assert forall a :: a in w ==> a in all;
  }

  lemma StartFixed(tok: Token, w: seq<Atom>, st: Stack, all: seq<Atom>)
    requires tok.StartTag? && all == WrittenOne(tok) + w
    requires AllClean(st) && OnlyCleanTags(all) && !Read(all, st).Broken?
    ensures HeadFixed(tok, w, st, all)
  {
    assert all[0] == Open(OpenTag(tok.name, tok.attrs)) && all[1..] == w;
    assert Clean(OpenTag(tok.name, tok.attrs));
    LowerFixesAllowed(tok.name);
    assert forall a :: a in w ==> a in all;
  }

  lemma EndFixed(tok: Token, w: seq<Atom>, st: Stack, all: seq<Atom>)
    requires tok.EndTag? && all == WrittenOne(tok) + w
    requires AllClean(st) && OnlyCleanTags(all) && !Read(all, st).Broken?
    ensures HeadFixed(tok, w, st, all)
  {
    assert all[0] == Close(tok.name) && all[1..] == w;
    assert st[|st| - 1].tag == tok.name && Clean(st[|st| - 1]);
    LowerFixesAllowed(tok.name);
    assert Innermost(st, tok.name) == |st| - 1;
    assert ClosesDownTo(st, |st| - 1) == [Close(tok.name)];
    assert forall a :: a in w ==> a in all;
  }

  lemma {:induction false} WellNestedIsFixed(toks: seq<Token>, st: Stack)
    requires forall t :: t in toks ==> Spells(t)
    requires AllClean(st) && OnlyCleanTags(Written(toks)) && !Read(Written(toks), st).Broken?
    ensures EmitAll(toks, st) == Written(toks)
    ensures Final(toks, st) == Read(Written(toks), st).open
    decreases |toks|
  {
    if toks != [] {
      var tok, w, all := toks[0], Written(toks[1..]), Written(toks);
      assert tok in toks && forall t :: t in toks[1..] ==> t in toks;
      if tok.TextToken? {
        TextFixed(tok, w, st, all);
      } else if tok.StartTag? {
        StartFixed(tok, w, st, all);
      } else {
        EndFixed(tok, w, st, all);
      }
      WellNestedIsFixed(toks[1..], Next(toks[0], st));
    }
  }

  lemma {:induction false} ReadEscaped(atoms: seq<Atom>, st: Stack)
    ensures Read(Escaped(atoms), st) == Read(atoms, st)
    decreases |atoms|
  {
    if atoms != [] {
      assert Escaped(atoms)[1..] == Escaped(atoms[1..]);
      match atoms[0] {
        case Open(t) => ReadEscaped(atoms[1..], st + [t]);
        case Close(_) => if st != [] { ReadEscaped(atoms[1..], st[..|st| - 1]); }
        case _ => ReadEscaped(atoms[1..], st);
      }
    }
  }

  /** Any token stream that spells the output is sanitised to that output, every character
      escaped, with nothing left open. */
  lemma SanitizeIdempotent(toks: seq<Token>, st: Stack, again: seq<Token>)
    requires AllClean(st) && ReadsBackAs(Sanitized(toks, st), again)
    ensures Sanitized(again, []) == Escaped(Sanitized(toks, st))
    ensures Final(again, []) == []
  {
    var out := Sanitized(toks, st);
    SanitizedReads(toks, st);
    SanitizedOnlyCleanTags(toks, st);
    ReadEscaped(out, []);
    assert forall t :: Open(t) in Escaped(out) ==> Open(t) in out;
    WellNestedIsFixed(again, []);
    assert Opens([]) == [];
  }

  // ---- The chunk loop of SplitHTMLChunks ----

  predicate IsBlank(atoms: seq<Atom>) {
    forall a :: a in atoms ==> (a.Ch? || a.Raw?) && IsSpace(a.c)
  }

  function Concat<T>(parts: seq<seq<T>>): seq<T> {
    if parts == [] then [] else Concat(parts[..|parts| - 1]) + parts[|parts| - 1]
  }

  /** Everything a reader sees except white space outside all tags. */
  function Ink(seen: seq<(char, Stack)>): seq<(char, Stack)> {
    if seen == [] then []
    else
      var rest := Ink(seen[..|seen| - 1]);
      var p := seen[|seen| - 1];
      if p.1 == [] && IsSpace(p.0) then rest else rest + [p]
  }

  lemma {:induction false} InkConcat(a: seq<(char, Stack)>, b: seq<(char, Stack)>)
    ensures Ink(a + b) == Ink(a) + Ink(b)
    decreases |b|
  {
    if b == [] {
      assert a + b == a;
    } else {
      assert (a + b)[..|a + b| - 1] == a + b[..|b| - 1];
      InkConcat(a, b[..|b| - 1]);
    }
  }

  lemma {:induction false} BlankHasNoInk(atoms: seq<Atom>)
    requires IsBlank(atoms)
    ensures !Read(atoms, []).Broken? && Ink(Read(atoms, []).seen) == []
    decreases |atoms|
  {
    if atoms != [] {
      BlankHasNoInk(atoms[1..]);
      var rest := Read(atoms[1..], []).seen;
      InkConcat([(atoms[0].c, [])], rest);
      assert Read(atoms, []).seen == [(atoms[0].c, [])] + rest;
    }
  }

  /** The chunks the loop sends: each raw chunk sanitised from the stack the ones before it
      leave open, blank ones dropped. */
  function Kept(raws: seq<seq<Token>>): seq<seq<Atom>> {
    if raws == [] then []
    else
      var before := raws[..|raws| - 1];
      var html := Sanitized(raws[|raws| - 1], Final(Concat(before), []));
      Kept(before) + if IsBlank(html) then [] else [html]
  }

  function SentChunks(raws: seq<seq<Token>>): seq<seq<Atom>> {
    if Kept(raws) == [] then [[]] else Kept(raws)
  }

  ghost predicate WellNested(c: seq<Atom>) {
    Read(c, []).Reading? && Read(c, []).open == [] && OnlyCleanTags(c)
  }

  lemma ConcatLast<T>(parts: seq<seq<T>>, last: seq<T>)
    ensures Concat(parts + [last]) == Concat(parts) + last
  {
    assert (parts + [last])[..|parts|] == parts;
  }

  /** The atoms sent so far read as the tokens so far mean, with nothing left open. */
  ghost predicate ShowsSame(sent: seq<Atom>, done: seq<Token>) {
    && Read(sent, []).Reading? && Read(sent, []).open == []
    && Ink(Read(sent, []).seen) == Ink(Meaning(done, []))
  }

  lemma {:induction false} ShowsMore(sent: seq<Atom>, done: seq<Token>, raw: seq<Token>, html: seq<Atom>)
    requires ShowsSame(sent, done) && html == Sanitized(raw, Final(done, []))
    ensures ShowsSame(sent + html, done + raw)
  {
    var st := Final(done, []);
    SanitizedReads(raw, st);
    MeaningConcat(done, raw, []);
    ReadConcat(sent, html, []);
    InkConcat(Meaning(done, []), Meaning(raw, st));
    InkConcat(Read(sent, []).seen, Read(html, []).seen);
  }

  lemma ShowsBlank(sent: seq<Atom>, done: seq<Token>, raw: seq<Token>, html: seq<Atom>)
    requires ShowsSame(sent, done) && html == Sanitized(raw, Final(done, [])) && IsBlank(html)
    ensures ShowsSame(sent, done + raw)
  {
    var st := Final(done, []);
    SanitizedReads(raw, st);
    MeaningConcat(done, raw, []);
    BlankHasNoInk(html);
    InkConcat(Meaning(done, []), Meaning(raw, st));
  }

  ghost predicate AllSent(chunks: seq<seq<Atom>>) {
    forall c :: c in chunks ==> WellNested(c) && !IsBlank(c)
  }

  /** What the chunks of a prefix of the raw chunks satisfy. */
  ghost predicate Sending(raws: seq<seq<Token>>, chunks: seq<seq<Atom>>, openTags: Stack) {
    && AllClean(openTags) && openTags == Final(Concat(raws), [])
    && AllSent(chunks) && ShowsSame(Concat(chunks), Concat(raws))
  }

  lemma SentMore(chunks: seq<seq<Atom>>, html: seq<Atom>)
    requires AllSent(chunks) && WellNested(html) && !IsBlank(html)
    ensures AllSent(chunks + [html])
  {
  }

  lemma {:induction false} SendingStep(raws: seq<seq<Token>>, chunks: seq<seq<Atom>>, st: Stack, raw: seq<Token>,
                                       html: seq<Atom>, chunks': seq<seq<Atom>>)
    requires Sending(raws, chunks, st) && html == Sanitized(raw, st)
    requires chunks' == if IsBlank(html) then chunks else chunks + [html]
    ensures Sending(raws + [raw], chunks', Final(raw, st))
  {
    var done := Concat(raws);
    SanitizedOnlyCleanTags(raw, st);
    MeaningConcat(done, raw, []);
    ConcatLast(raws, raw);
    if IsBlank(html) {
      ShowsBlank(Concat(chunks), done, raw, html);
    } else {
      SanitizedReads(raw, st);
      SentMore(chunks, html);
      ConcatLast(chunks, html);
      ShowsMore(Concat(chunks), done, raw, html);
    }
  }

  lemma {:induction false} KeptSends(raws: seq<seq<Token>>)
    ensures Sending(raws, Kept(raws), Final(Concat(raws), []))
  {
    if raws != [] {
      var n := |raws| - 1;
      KeptSends(raws[..n]);
      LastSends(raws[..n], raws[n], raws);
    }
  }

  lemma LastSends(before: seq<seq<Token>>, raw: seq<Token>, raws: seq<seq<Token>>)
    requires raws == before + [raw] && Sending(before, Kept(before), Final(Concat(before), []))
    ensures Sending(raws, Kept(raws), Final(Concat(raws), []))
  {
    var st := Final(Concat(before), []);
    assert raws[..|before|] == before;
    ConcatLast(before, raw);
    MeaningConcat(Concat(before), raw, []);
    hide Sending;
    hide IsBlank;
    hide Sanitized;
    hide Final;
    SendingStep(before, Kept(before), st, raw, Sanitized(raw, st), Kept(raws));
  }

  lemma KeptStep(raws: seq<seq<Token>>, k: nat, st: Stack)
    requires k < |raws| && st == Final(Concat(raws[..k]), [])
    ensures Final(Concat(raws[..k + 1]), []) == Final(raws[k], st)
    ensures var html := Sanitized(raws[k], st);
      Kept(raws[..k + 1]) == if IsBlank(html) then Kept(raws[..k]) else Kept(raws[..k]) + [html]
  {
    assert raws[..k + 1][..k] == raws[..k];
    MeaningConcat(Concat(raws[..k]), raws[k], []);
  }

  /** Main result: the loop over the raw chunks sends well-nested chunks over allowed
      tags whose concatenation shows what the undivided stream means, and never an
      empty list; only white space outside all tags can be lost with a blank chunk. */
  lemma SentChunksShow(raws: seq<seq<Token>>)
    ensures var chunks := SentChunks(raws);
      && |chunks| >= 1 && ((forall c :: c in chunks ==> !IsBlank(c)) || chunks == [[]])
      && (forall c :: c in chunks ==> WellNested(c))
      && Read(Concat(chunks), []).Reading?
      && Ink(Read(Concat(chunks), []).seen) == Ink(Meaning(Concat(raws), []))
  {
    KeptSends(raws);
    var none: seq<Atom> := [];
    assert Concat([none]) == Concat([none][..0]) + none && [none][..0] == [];
  }

  // ---- The same, character by character ----

  /** What raw chunk k means after the ones before it. */
  function Share(raws: seq<seq<Token>>, k: nat): seq<(char, Stack)>
    requires k < |raws|
  {
    Meaning(raws[k], Final(Concat(raws[..k]), []))
  }

  predicate IsDropped(raws: seq<seq<Token>>, k: nat)
    requires k < |raws|
  {
    IsBlank(Sanitized(raws[k], Final(Concat(raws[..k]), [])))
  }

  /** The shares of the chunks that are sent, one after the other. */
  function SentShares(raws: seq<seq<Token>>): seq<(char, Stack)> {
    if raws == [] then []
    else
      var n := |raws| - 1;
      SentShares(raws[..n]) + if IsDropped(raws, n) then [] else Share(raws, n)
  }

  /** White space outside all tags. */
  predicate OnlyBlank(seen: seq<(char, Stack)>) {
    forall i :: 0 <= i < |seen| ==> seen[i].1 == [] && IsSpace(seen[i].0)
  }

  lemma {:induction false} BlankShows(atoms: seq<Atom>)
    requires IsBlank(atoms)
    ensures Read(atoms, []).Reading? && OnlyBlank(Read(atoms, []).seen)
    decreases |atoms|
  {
    if atoms != [] {
      assert atoms[0] in atoms;
      assert forall a :: a in atoms[1..] ==> a in atoms;
      BlankShows(atoms[1..]);
    }
  }

  lemma {:induction false} KeptReads(raws: seq<seq<Token>>)
    ensures Read(Concat(Kept(raws)), []) == Reading([], SentShares(raws))
  {
    if raws != [] {
      var n := |raws| - 1;
      var st := Final(Concat(raws[..n]), []);
      var html := Sanitized(raws[n], st);
      var before := Kept(raws[..n]);
      KeptReads(raws[..n]);
      SanitizedReads(raws[n], st);
      if IsBlank(html) {
        assert Kept(raws) == before + [] == before;
      } else {
        assert Kept(raws) == before + [html];
        ConcatLast(before, html);
        ReadConcat(Concat(before), html, []);
      }
    }
  }

  /** Main result: the chunks that are sent show exactly the shares of their raw chunks, and a
      raw chunk that is dropped has nothing to show but white space outside all tags. */
  lemma SentChunksShowAll(raws: seq<seq<Token>>)
    ensures Read(Concat(SentChunks(raws)), []) == Reading([], SentShares(raws))
    ensures forall k :: 0 <= k < |raws| && IsDropped(raws, k) ==> OnlyBlank(Share(raws, k))
  {
    KeptReads(raws);
    var none: seq<Atom> := [];
    assert Concat([none]) == Concat([none][..0]) + none && [none][..0] == [];
    forall k | 0 <= k < |raws| && IsDropped(raws, k) ensures OnlyBlank(Share(raws, k)) {
      var st := Final(Concat(raws[..k]), []);
      SanitizedReads(raws[k], st);
      BlankShows(Sanitized(raws[k], st));
    }
  }

  /** The loop over the raw chunks at the end of SplitHTMLChunks. */
  method SanitizeChunks(raws: seq<seq<Token>>) returns (chunks: seq<seq<Atom>>)
    ensures chunks == SentChunks(raws)
  {
    chunks := [];
    var openTags: Stack := [];
    for k := 0 to |raws|
      invariant openTags == Final(Concat(raws[..k]), []) && chunks == Kept(raws[..k])
    {
      KeptStep(raws, k, openTags);
      var html;
      html, openTags := BalanceAndSanitize(raws[k], openTags);
      if !IsBlank(html) {
        chunks := chunks + [html];
      }
    }
    assert raws[..|raws|] == raws;
    if |chunks| == 0 {
      chunks := [[]];
    }
  }

  /** Where a chunk that is sent comes from. */
  lemma {:induction false} KeptFrom(raws: seq<seq<Token>>, c: seq<Atom>) returns (k: nat)
    requires c in Kept(raws)
    ensures k < |raws| && c == Sanitized(raws[k], Final(Concat(raws[..k]), []))
    decreases |raws|
  {
    var n := |raws| - 1;
    if c in Kept(raws[..n]) {
      k := KeptFrom(raws[..n], c);
      assert raws[..n][..k] == raws[..k];
    } else {
      k := n;
    }
  }

  /** No blank chunk is sent but the one that stands for nothing. */
  lemma {:induction false} SentNotBlank(raws: seq<seq<Token>>)
    ensures SentChunks(raws) == if Kept(raws) == [] then [[]] else Kept(raws)
    ensures forall c :: c in Kept(raws) ==> !IsBlank(c)
    decreases |raws|
  {
    if raws != [] {
      SentNotBlank(raws[..|raws| - 1]);
    }
  }
}
