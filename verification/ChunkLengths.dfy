/** How long the chunks of SplitHTMLChunks (formatters.go) are as text, and how much they show. */
module ChunkLengths {
  import opened Chunks
  import opened Html
  import opened Results
  import opened SanitizedText
  import opened Sanitizer
  import opened Splitter
  import opened Text

  // ---- The exact length of a sanitised chunk ----

  function TextLen(atoms: seq<Atom>): nat {
    Utf16Len(Markup(atoms))
  }

  /** What an open tag costs a chunk: its opening and its closing tag. */
  function TagLen(t: OpenTag): nat {
    Utf16Len(Write(Open(t))) + Utf16Len(Write(Close(t.tag)))
  }

  function Carry(st: Stack): nat {
    if st == [] then 0 else Carry(st[..|st| - 1]) + TagLen(st[|st| - 1])
  }

  /** A tag that is not allowed, between "&lt;" and "&gt;". */
  function DisplayedLen(before: string, name: string, after: string): nat {
    8 + |before| + Utf16Len(name) + |after|
  }

  function WeightOf(tok: Token): nat {
    match tok
    case TextToken(data) => Utf16Len(EscapeText(data))
    case StartTag(name, attrs) =>
      var tag := Lower(name);
      if tag in ALLOWED_TAGS then TagLen(OpenTag(tag, CleanAttrs(tag, attrs))) else DisplayedLen("", name, "")
    case EndTag(name) => if Lower(name) in ALLOWED_TAGS then 0 else DisplayedLen("/", name, "")
    case SelfClosing(name) => DisplayedLen("", Lower(name), "/")
    case _ => 0
  }

  function Weight(toks: seq<Token>): nat {
    if toks == [] then 0 else WeightOf(toks[0]) + Weight(toks[1..])
  }

  lemma TextLenConcat(a: seq<Atom>, b: seq<Atom>)
    ensures TextLen(a + b) == TextLen(a) + TextLen(b)
  {
    MarkupConcat(a, b);
    Utf16LenConcat(Markup(a), Markup(b));
  }

  lemma TextLenOne(a: Atom)
    ensures TextLen([a]) == Utf16Len(Write(a))
  {
    var one := [a];
    assert one[0] == a && one[1..] == [];
    assert Cat(one, Write) == Write(one[0]) + Cat(one[1..], Write);
    assert Write(a) + "" == Write(a);
  }

  lemma {:induction false} MarkupChars(s: string)
    ensures Markup(Chars(s)) == EscapeText(s)
  {
    if s != "" {
      assert Chars(s)[1..] == Chars(s[1..]);
      MarkupChars(s[1..]);
      EscapeCons(s[0], s[1..], s);
    }
  }

  lemma TextLenDisplayed(before: string, name: string, after: string)
    requires NameTail(before) && NameTail(after)
    ensures TextLen(Displayed(before, name, after)) == DisplayedLen(before, name, after)
  {
    DisplayedText(before, name, after);
    NarrowUnits("&lt;" + before);
    NarrowUnits(after + "&gt;");
    Utf16LenConcat(name, after + "&gt;");
    Utf16LenConcat("&lt;" + before, name + (after + "&gt;"));
  }

  lemma {:induction false} ClosesSplit(st: Stack, k: nat)
    requires k <= |st|
    ensures ClosesDownTo(st, k) + ClosesDownTo(st[..k], 0) == ClosesDownTo(st, 0)
    decreases |st|
  {
    if |st| == k {
      assert st[..k] == st;
      NoCloses(st);
    } else {
      var init, last := st[..|st| - 1], Close(st[|st| - 1].tag);
      ClosesSplit(init, k);
      assert init[..k] == st[..k];
      FrontSplit(last, ClosesDownTo(init, k), ClosesDownTo(st[..k], 0));
    }
  }

  lemma NoCloses(st: Stack)
    ensures ClosesDownTo(st, |st|) + ClosesDownTo(st, 0) == ClosesDownTo(st, 0)
  {
  }

  lemma FrontSplit(a: Atom, b: seq<Atom>, c: seq<Atom>)
    ensures [a] + b + c == [a] + (b + c)
  {
  }

  function ClosesLen(st: Stack): nat {
    TextLen(ClosesDownTo(st, 0))
  }

  lemma ClosesLenLast(st: Stack, t: OpenTag)
    ensures ClosesLen(st + [t]) == Utf16Len(Write(Close(t.tag))) + ClosesLen(st)
  {
    assert (st + [t])[..|st|] == st;
    TextLenConcat([Close(t.tag)], ClosesDownTo(st, 0));
    TextLenOne(Close(t.tag));
  }

  /** What a token writes and what it saves or adds at the end. */
  lemma EmitLen(tok: Token, st: Stack)
    ensures TextLen(Emit(tok, st)) + ClosesLen(Next(tok, st)) == ClosesLen(st) + WeightOf(tok)
  {
    assert Markup([]) == "";
    match tok
    case TextToken(data) => MarkupChars(data);
    case StartTag(name, attrs) =>
      if Lower(name) in ALLOWED_TAGS {
        var t := OpenTag(Lower(name), CleanAttrs(Lower(name), attrs));
        TextLenOne(Open(t));
        ClosesLenLast(st, t);
      } else {
        TextLenDisplayed("", name, "");
      }
    case EndTag(name) =>
      if Lower(name) in ALLOWED_TAGS {
        var i := Innermost(st, Lower(name));
        if i >= 0 {
          ClosesSplit(st, i);
          TextLenConcat(ClosesDownTo(st, i), ClosesDownTo(st[..i], 0));
        }
      } else {
        TextLenDisplayed("/", name, "");
      }
    case SelfClosing(name) => TextLenDisplayed("", Lower(name), "/");
    case _ =>
  }

  lemma {:induction false} EmitAllLen(toks: seq<Token>, st: Stack)
    ensures TextLen(EmitAll(toks, st)) + ClosesLen(Final(toks, st)) == ClosesLen(st) + Weight(toks)
    decreases |toks|
  {
    if toks == [] {
      assert Markup([]) == "";
    } else {
      var st' := Next(toks[0], st);
      EmitLen(toks[0], st);
      EmitAllLen(toks[1..], st');
      TextLenConcat(Emit(toks[0], st), EmitAll(toks[1..], st'));
    }
  }

  lemma OpensLenLast(init: Stack, t: OpenTag)
    ensures TextLen(Opens(init + [t])) == TextLen(Opens(init)) + Utf16Len(Write(Open(t)))
  {
    assert Opens(init + [t]) == Opens(init) + [Open(t)];
    TextLenConcat(Opens(init), [Open(t)]);
    TextLenOne(Open(t));
  }

  lemma CarryLenNone()
    ensures TextLen(Opens([])) + ClosesLen([]) == 0
  {
    assert Markup([]) == "" && Opens([]) == [] && ClosesDownTo([], 0) == [];
  }

  lemma CarryLenLast(init: Stack, t: OpenTag)
    ensures TextLen(Opens(init + [t])) + ClosesLen(init + [t]) == TextLen(Opens(init)) + ClosesLen(init) + TagLen(t)
  {
    ClosesLenLast(init, t);
    OpensLenLast(init, t);
  }

  lemma {:induction false} CarryLen(st: Stack)
    ensures TextLen(Opens(st)) + ClosesLen(st) == Carry(st)
  {
    hide Opens;
    hide ClosesLen;
    hide TextLen;
    hide TagLen;
    if st == [] {
      CarryLenNone();
    } else {
      var init, t := st[..|st| - 1], st[|st| - 1];
      CarryLen(init);
      assert st == init + [t];
      CarryLenLast(init, t);
    }
  }

  /** The exact length of a sanitised chunk: what it carries in and what its own tokens cost,
      whatever they leave open. */
  lemma {:induction false} SanitizedLength(toks: seq<Token>, st: Stack)
    ensures TextLen(Sanitized(toks, st)) == Carry(st) + Weight(toks)
  {
    EmitAllLen(toks, st);
    CarryLen(st);
    TextLenConcat(Opens(st), EmitAll(toks, st));
    TextLenConcat(Opens(st) + EmitAll(toks, st), ClosesDownTo(Final(toks, st), 0));
  }

  // ---- When every chunk fits ----

  function SentText(raws: seq<seq<Token>>, k: nat): seq<Atom>
    requires k < |raws|
  {
    Sanitized(raws[k], Final(Concat(raws[..k]), []))
  }

  lemma KeptGrows(raws: seq<seq<Token>>, html: seq<Atom>)
    requires raws != [] && html in Kept(raws[..|raws| - 1])
    ensures html in Kept(raws)
  {
  }

  lemma KeptLast(raws: seq<seq<Token>>, html: seq<Atom>)
    requires raws != [] && html == SentText(raws, |raws| - 1) && !Sanitizer.IsBlank(html)
    ensures html in Kept(raws)
  {
    assert Kept(raws) == Kept(raws[..|raws| - 1]) + [html];
  }

  lemma {:induction false} KeptHas(raws: seq<seq<Token>>, k: nat, html: seq<Atom>)
    requires k < |raws| && html == SentText(raws, k) && !Sanitizer.IsBlank(html)
    ensures html in Kept(raws)
    decreases |raws|
  {
    hide Sanitizer.Sanitized;
    hide Sanitizer.IsBlank;
    hide Sanitizer.Kept;
    var n := |raws| - 1;
    if k < n {
      assert raws[..n][..k] == raws[..k];
      KeptHas(raws[..n], k, html);
      KeptGrows(raws, html);
    } else {
      KeptLast(raws, html);
    }
  }

  /** What is carried into each raw chunk that is not blank, and the cost of its tokens, fit. */
  ghost predicate CostsFit(raws: seq<seq<Token>>, size: int) {
    forall k :: 0 <= k < |raws| && !Sanitizer.IsBlank(SentText(raws, k)) ==>
      Carry(Final(Concat(raws[..k]), [])) + Weight(raws[k]) <= size
  }

  /** Every chunk that is sent fits a size if and only if, for every raw chunk that is not
      blank, what is carried into it and the cost of its tokens do. */
  lemma {:induction false} ChunksFitIff(raws: seq<seq<Token>>, size: int)
    ensures (forall c :: c in Kept(raws) ==> TextLen(c) <= size) <==> CostsFit(raws, size)
  {
    forall k | 0 <= k < |raws|
      ensures TextLen(SentText(raws, k)) == Carry(Final(Concat(raws[..k]), [])) + Weight(raws[k])
      ensures !Sanitizer.IsBlank(SentText(raws, k)) ==> SentText(raws, k) in Kept(raws)
    {
      SanitizedLength(raws[k], Final(Concat(raws[..k]), []));
      if !Sanitizer.IsBlank(SentText(raws, k)) { KeptHas(raws, k, SentText(raws, k)); }
    }
    forall c | c in Kept(raws)
      ensures exists k :: 0 <= k < |raws| && c == SentText(raws, k) && !Sanitizer.IsBlank(c)
    {
      KeptSends(raws);
      var k := KeptFrom(raws, c);
      assert c == SentText(raws, k);
    }
  }

  /** The same for a text: sent whole, it fits if and only if its tokens cost no more; otherwise
      the condition is on its raw chunks. */
  lemma TextChunksFitIff(text: string, limit: int, lex: string -> seq<Token>, size: nat)
    ensures (forall c :: c in ChunksOf(text, limit, lex) ==> TextLen(c) <= size) <==>
      if Utf16Len(text) <= limit then Weight(lex(text)) <= size
      else CostsFit(LexAll(lex, RawChunks(Paragraphs(text), limit)), size)
  {
    hide TextLen;
    hide Weight;
    hide Carry;
    hide Sanitizer.Sanitized;
    hide Sanitizer.IsBlank;
    hide Sanitizer.Kept;
    hide RawChunks;
    hide CostsFit;
    if Utf16Len(text) <= limit {
      var whole := Sanitized(lex(text), []);
      SanitizedLength(lex(text), []);
      CarryNone();
      assert ChunksOf(text, limit, lex) == [whole] && whole in [whole];
    } else {
      var toks := LexAll(lex, RawChunks(Paragraphs(text), limit));
      ChunksFitIff(toks, size);
      SentFitIff(toks, size);
    }
  }

  lemma CarryNone()
    ensures Carry([]) == 0
  {
  }

  /** The empty chunk that is sent when none is left fits every size. */
  lemma SentFitIff(toks: seq<seq<Token>>, size: nat)
    ensures (forall c :: c in SentChunks(toks) ==> TextLen(c) <= size)
      <==> forall c :: c in Kept(toks) ==> TextLen(c) <= size
  {
    assert Markup([]) == "";
  }

  // ---- A condition on the text ----

  /** The cost of the tags the tokens open. */
  function TagWeight(toks: seq<Token>): nat {
    if toks == [] then 0
    else (if toks[0].StartTag? && Lower(toks[0].name) in ALLOWED_TAGS then WeightOf(toks[0]) else 0)
         + TagWeight(toks[1..])
  }

  lemma {:induction false} CarryPrefix(st: Stack, k: nat)
    requires k <= |st|
    ensures Carry(st[..k]) <= Carry(st)
    decreases |st|
  {
    if k == |st| {
      assert st[..k] == st;
    } else {
      CarryPrefix(st[..|st| - 1], k);
      assert st[..|st| - 1][..k] == st[..k];
    }
  }

  lemma {:induction false} CarryBound(toks: seq<Token>, st: Stack)
    ensures Carry(Final(toks, st)) <= Carry(st) + TagWeight(toks)
    decreases |toks|
  {
    if toks != [] {
      CarryBound(toks[1..], Next(toks[0], st));
      CarryNext(toks[0], st);
    }
  }

  lemma CarryNext(tok: Token, st: Stack)
    ensures Carry(Next(tok, st)) <= Carry(st)
            + if tok.StartTag? && Lower(tok.name) in ALLOWED_TAGS then WeightOf(tok) else 0
  {
    match tok
    case StartTag(name, attrs) =>
      var t := OpenTag(Lower(name), CleanAttrs(Lower(name), attrs));
      assert (st + [t])[..|st|] == st;
    case EndTag(name) =>
      var i := Innermost(st, Lower(name));
      if i >= 0 { CarryPrefix(st, i); }
    case _ =>
  }

  lemma {:induction false} WeightConcat(a: seq<Token>, b: seq<Token>)
    ensures Weight(a + b) == Weight(a) + Weight(b) && TagWeight(a + b) == TagWeight(a) + TagWeight(b)
    decreases |a|
  {
    if a == [] {
      assert a + b == b;
    } else {
      assert (a + b)[1..] == a[1..] + b;
      WeightConcat(a[1..], b);
    }
  }

  function Max(a: int, b: int): int {
    if a >= b then a else b
  }

  /** What one segment can add to the length of a chunk: inside the chunk, by being longer
      when written than it was, or before it, by leaving tags open. */
  function Extra(toks: seq<Token>, text: string): nat {
    Max(TagWeight(toks), Weight(toks) - Utf16Len(text))
  }

  function Overhead(segs: seq<Segment>, tok: Segment -> seq<Token>): nat {
    if segs == [] then 0
    else Overhead(segs[..|segs| - 1], tok) + Extra(tok(segs[|segs| - 1]), segs[|segs| - 1].text)
  }

  lemma {:induction false} OverheadConcat(a: seq<Segment>, b: seq<Segment>, tok: Segment -> seq<Token>)
    ensures Overhead(a + b, tok) == Overhead(a, tok) + Overhead(b, tok)
    decreases |b|
  {
    if b == [] {
      assert a + b == a;
    } else {
      assert (a + b)[..|a + b| - 1] == a + b[..|b| - 1];
      OverheadConcat(a, b[..|b| - 1], tok);
    }
  }

  lemma {:induction false} OverheadBounds(segs: seq<Segment>, tok: Segment -> seq<Token>)
    ensures TagWeight(TokensOf(segs, tok)) <= Overhead(segs, tok)
    ensures Weight(TokensOf(segs, tok)) <= Utf16Len(Flatten(segs)) + Overhead(segs, tok)
  {
    if segs != [] {
      var init, last := segs[..|segs| - 1], segs[|segs| - 1];
      OverheadBounds(init, tok);
      WeightConcat(TokensOf(init, tok), tok(last));
      Utf16LenConcat(Flatten(init), last.text);
    }
  }

  /** Runs of the text cost what their segments cost. */
  ghost predicate WeighsRuns(lex: string -> seq<Token>, tok: Segment -> seq<Token>, segs: seq<Segment>) {
    forall i, j :: 0 <= i <= j <= |segs| ==>
      Weight(lex(Flatten(segs[i..j]))) == Weight(TokensOf(segs[i..j], tok))
  }

  lemma {:induction false} RunFits(before: seq<Segment>, group: seq<Segment>, segs: seq<Segment>,
                                   tok: Segment -> seq<Token>, limit: int)
    requires before + group <= segs && Utf16Len(Flatten(group)) <= limit
    ensures TagWeight(TokensOf(before, tok)) + Weight(TokensOf(group, tok)) <= limit + Overhead(segs, tok)
  {
    var rest := segs[|before + group|..];
    assert segs == before + group + rest;
    OverheadConcat(before + group, rest, tok);
    OverheadConcat(before, group, tok);
    OverheadBounds(before, tok);
    OverheadBounds(group, tok);
  }

  lemma {:induction false} LexAllAt(lex: string -> seq<Token>, raws: seq<string>, k: nat)
    requires k < |raws|
    ensures |LexAll(lex, raws)| == |raws| && LexAll(lex, raws)[k] == lex(raws[k])
    ensures LexAll(lex, raws)[..k] == LexAll(lex, raws[..k])
    decreases |raws|
  {
    var n := |raws| - 1;
    LexAllLen(lex, raws[..n]);
    if k < n {
      LexAllAt(lex, raws[..n], k);
      assert raws[..n][..k] == raws[..k];
    } else {
      assert LexAll(lex, raws)[..n] == LexAll(lex, raws[..n]);
    }
  }

  lemma {:induction false} LexAllLen(lex: string -> seq<Token>, raws: seq<string>)
    ensures |LexAll(lex, raws)| == |raws|
  {
    if raws != [] {
      LexAllLen(lex, raws[..|raws| - 1]);
    }
  }

  lemma {:induction false} LaidPrefix(cover: seq<Piece>, k: nat)
    requires k < |cover|
    ensures Laid(cover[..k]) + cover[k].group <= Laid(cover)
    decreases |cover|
  {
    var n := |cover| - 1;
    if k < n {
      LaidPrefix(cover[..n], k);
      assert cover[..n][..k] == cover[..k] && cover[..n][k] == cover[k];
    }
  }

  /** What is carried into a chunk comes from the tags of the segments before it. */
  lemma CarriedIn(lex: string -> seq<Token>, tok: Segment -> seq<Token>, segs: seq<Segment>,
                  cover: seq<Piece>, raws: seq<string>)
    requires LexesRuns(lex, tok, segs) && Matches(cover, raws) && Laid(cover) <= segs
    ensures Carry(Final(Concat(LexAll(lex, raws)), [])) <= TagWeight(TokensOf(Laid(cover), tok))
  {
    ChunksAgree(lex, tok, cover, raws, segs);
    CarryBound(TokensOf(Laid(cover), tok), []);
  }

  /** One raw chunk of a covered text. */
  lemma CoveredChunkFits(lex: string -> seq<Token>, tok: Segment -> seq<Token>, segs: seq<Segment>,
                         cover: seq<Piece>, raws: seq<string>, k: nat, limit: int)
    requires LexesRuns(lex, tok, segs) && WeighsRuns(lex, tok, segs)
    requires Matches(cover, raws) && Laid(cover) == segs && WithinLimit(raws, limit) && k < |raws|
    ensures Carry(Final(Concat(LexAll(lex, raws[..k])), [])) + Weight(lex(raws[k])) <= limit + Overhead(segs, tok)
  {
    var before, group := Laid(cover[..k]), cover[k].group;
    LaidPrefix(cover, k);
    CarriedIn(lex, tok, segs, cover[..k], raws[..k]);
    RunWeight(lex, tok, segs, before, group);
    RunFits(before, group, segs, tok, limit);
  }

  lemma RunWeight(lex: string -> seq<Token>, tok: Segment -> seq<Token>, segs: seq<Segment>,
                  before: seq<Segment>, group: seq<Segment>)
    requires WeighsRuns(lex, tok, segs) && before + group <= segs
    ensures before <= segs && Weight(lex(Flatten(group))) == Weight(TokensOf(group, tok))
  {
    assert group == segs[|before|..|before| + |group|];
  }

  /** Main result: a caller who lowers the limit by the overhead of a text that is sent whole,
      or whose paragraphs fit the limit or cannot be cut, gets chunks of at most that size. */
  lemma {:induction false} ChunksWithin(lex: string -> seq<Token>, tok: Segment -> seq<Token>, segs: seq<Segment>,
                                        text: string, limit: int, size: int)
    requires text == Flatten(segs) && Sendable(segs, limit)
    requires LexesRuns(lex, tok, segs) && WeighsRuns(lex, tok, segs) && limit + Overhead(segs, tok) <= size
    ensures forall c :: c in ChunksOf(text, limit, lex) ==> TextLen(c) <= size
  {
    assert Markup([]) == "";
    if Utf16Len(text) <= limit {
      SanitizedLength(lex(text), []);
      assert segs[0..|segs|] == segs;
      OverheadBounds(segs, tok);
    } else {
      var raws := RawChunks(Paragraphs(text), limit);
      RawChunksWithinLimit(Paragraphs(text), limit);
      RawChunksAligned(segs, limit);
      var cover: seq<Piece> :| Matches(cover, raws) && Laid(cover) == segs;
      var toks := LexAll(lex, raws);
      LexAllLen(lex, raws);
      forall k | 0 <= k < |toks| ensures Carry(Final(Concat(toks[..k]), [])) + Weight(toks[k]) <= size {
        LexAllAt(lex, raws, k);
        CoveredChunkFits(lex, tok, segs, cover, raws, k, limit);
      }
      ChunksFitIff(toks, size);
    }
  }

  // ---- What a chunk shows ----

  /** The characters a reader sees, without their tags. */
  function SeenText(seen: seq<(char, Stack)>): string {
    seq(|seen|, i requires 0 <= i < |seen| => seen[i].0)
  }

  function ShownLen(toks: seq<Token>): nat {
    if toks == [] then 0 else Utf16Len(Shown(toks[0])) + ShownLen(toks[1..])
  }

  lemma SeenBefore(shown: string, st: Stack, rest: seq<(char, Stack)>)
    ensures SeenText(Seen(shown, st) + rest) == shown + SeenText(rest)
  {
  }

  lemma {:induction false} MeaningLen(toks: seq<Token>, st: Stack)
    ensures Utf16Len(SeenText(Meaning(toks, st))) == ShownLen(toks)
    decreases |toks|
  {
    if toks != [] {
      var shown, rest := Shown(toks[0]), Meaning(toks[1..], Next(toks[0], st));
      MeaningLen(toks[1..], Next(toks[0], st));
      SeenBefore(shown, st, rest);
      Utf16LenConcat(shown, SeenText(rest));
    }
  }

  lemma {:induction false} ChunkShows(toks: seq<Token>, st: Stack)
    ensures Read(Sanitized(toks, st), []).Reading?
    ensures Utf16Len(SeenText(Read(Sanitized(toks, st), []).seen)) == ShownLen(toks)
  {
    SanitizedReads(toks, st);
    MeaningLen(toks, st);
  }

  /** Main result: for every text, if no token shows more than it was written with, every
      chunk shows at most `limit` units, however long its markup is. */
  lemma VisibleWithin(text: string, limit: int, lex: string -> seq<Token>)
    requires limit >= 2 && forall s :: ShownLen(lex(s)) <= Utf16Len(s)
    ensures forall c :: c in ChunksOf(text, limit, lex) ==> Read(c, []).Reading?
    ensures forall c :: c in ChunksOf(text, limit, lex) ==> Utf16Len(SeenText(Read(c, []).seen)) <= limit
  {
    if Utf16Len(text) <= limit {
      ChunkShows(lex(text), []);
    } else {
      var raws := RawChunks(Paragraphs(text), limit);
      var toks := LexAll(lex, raws);
      RawChunksWithinLimit(Paragraphs(text), limit);
      LexAllLen(lex, raws);
      forall c | c in Kept(toks) ensures Read(c, []).Reading? && Utf16Len(SeenText(Read(c, []).seen)) <= limit {
        var k := KeptFrom(toks, c);
        LexAllAt(lex, raws, k);
        ChunkShows(toks[k], Final(Concat(toks[..k]), []));
      }
      assert SeenText(Read([], []).seen) == "";
    }
  }

  // ---- Chunks that are too long ----

  /** A chunk that carries one <b> has seven units more than its text. */
  lemma CarriedTagGrows(x: string)
    ensures TextLen(Sanitized([TextToken(x)], [OpenTag("b", [])])) == 7 + Utf16Len(EscapeText(x))
  {
    var st: Stack := [OpenTag("b", [])];
    SanitizedLength([TextToken(x)], st);
    assert [TextToken(x)][1..] == [] && st[..0] == [];
    assert Write(Open(st[0])) == "<b>" && Write(Close("b")) == "</b>";
    NarrowUnits("<b>");
    NarrowUnits("</b>");
  }
}
