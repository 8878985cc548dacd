/** Inline code spans: shieldInlineCodeSpans and the second copy of its scanner in
    shieldMarkdownCodeBlocksRaw (parser.go). */
module CodeSpans {
  import opened Placeholders

  // ---- What a span is ----

  predicate IsTick(s: Syms, i: int) {
    0 <= i < |s| && s[i] == Ch('`')
  }

  predicate IsNewline(s: Syms, i: int) {
    0 <= i < |s| && s[i] == Ch('\n')
  }

  predicate IsBlank(s: Syms, i: int) {
    0 <= i < |s| && s[i] in {Ch(' '), Ch('\t'), Ch('\r')}
  }

  /** A maximal run of k backticks at p. */
  ghost predicate RunAt(s: Syms, p: int, k: int) {
    && k >= 1 && 0 <= p && p + k <= |s|
    && (forall i :: p <= i < p + k ==> IsTick(s, i))
    && !IsTick(s, p - 1) && !IsTick(s, p + k)
  }

  /** The newline at q is followed by a blank line. */
  ghost predicate BreakAt(s: Syms, q: int) {
    IsNewline(s, q) && exists m :: q < m && IsNewline(s, m) && forall i :: q < i < m ==> IsBlank(s, i)
  }

  /** The first maximal run of exactly k from `from` on is at p, with no blank line before. */
  ghost predicate ClosesAt(s: Syms, from: int, k: int, p: int) {
    && from <= p && RunAt(s, p, k)
    && (forall q :: from <= q < p ==> !RunAt(s, q, k))
    && (forall q :: from <= q < p ==> !BreakAt(s, q))
  }

  datatype Span = Span(start: nat, ticks: nat, close: nat) {
    function End(): nat { close + ticks }
  }

  ghost predicate IsSpan(s: Syms, sp: Span) {
    RunAt(s, sp.start, sp.ticks) && ClosesAt(s, sp.start + sp.ticks, sp.ticks, sp.close)
  }

  ghost predicate StartsNoSpan(s: Syms, q: nat) {
    forall k: nat, p: nat :: !IsSpan(s, Span(q, k, p))
  }

  /** The spans of s from `from` on, left to right: each is the first one that starts
      after the previous one ends. */
  ghost predicate IsSpanList(s: Syms, from: nat, spans: seq<Span>)
    decreases |spans|
  {
    if spans == [] then forall q: nat :: from <= q ==> StartsNoSpan(s, q)
    else
      && from <= spans[0].start && IsSpan(s, spans[0])
      && (forall q: nat :: from <= q < spans[0].start ==> StartsNoSpan(s, q))
      && IsSpanList(s, spans[0].End(), spans[1..])
  }

  lemma RunLengthUnique(s: Syms, p: int, a: int, b: int)
    requires RunAt(s, p, a) && RunAt(s, p, b)
    ensures a == b
  {
    assert a < b ==> IsTick(s, p + a);
    assert b < a ==> IsTick(s, p + b);
  }

  lemma SpanUnique(s: Syms, a: Span, b: Span)
    requires IsSpan(s, a) && IsSpan(s, b) && a.start == b.start
    ensures a == b
  {
    RunLengthUnique(s, a.start, a.ticks, b.ticks);
    assert a.close == b.close;
  }

  /** Main result: a text has one list of spans, so two scanners that satisfy the
      specification pick the same spans. */
  lemma {:induction false} SpanListUnique(s: Syms, from: nat, a: seq<Span>, b: seq<Span>)
    requires IsSpanList(s, from, a) && IsSpanList(s, from, b)
    ensures a == b
    decreases |a|
  {
    if a == [] {
      assert b != [] ==> IsSpan(s, b[0]) && StartsNoSpan(s, b[0].start);
    } else {
      assert b == [] ==> StartsNoSpan(s, a[0].start);
      assert b != [] && a[0].start < b[0].start ==> StartsNoSpan(s, a[0].start);
      assert b != [] && b[0].start < a[0].start ==> StartsNoSpan(s, b[0].start);
      SpanUnique(s, a[0], b[0]);
      SpanListUnique(s, a[0].End(), a[1..], b[1..]);
      assert a == [a[0]] + a[1..] && b == [b[0]] + b[1..];
    }
  }

  // ---- The scanner ----

  method SkipTicks(s: Syms, i: nat) returns (j: nat)
    requires IsTick(s, i) && !IsTick(s, i - 1)
    ensures i < j && RunAt(s, i, j - i)
  {
    j := i;
    while j < |s| && s[j] == Ch('`')
      invariant i <= j <= |s|
      invariant forall k :: i <= k < j ==> IsTick(s, k)
    {
      j := j + 1;
    }
  }

  method HasBlankLine(s: Syms, j: nat) returns (yes: bool)
    requires IsNewline(s, j)
    ensures yes <==> BreakAt(s, j)
  {
    var kNL := j + 1;
    while kNL < |s| && s[kNL] in {Ch(' '), Ch('\t'), Ch('\r')}
      invariant j < kNL <= |s|
      invariant forall i :: j < i < kNL ==> IsBlank(s, i)
    {
      kNL := kNL + 1;
    }
    yes := kNL < |s| && s[kNL] == Ch('\n');
    if yes {
      assert IsNewline(s, kNL);
    } else {
      NoBlankLine(s, j, kNL);
    }
  }

  lemma NoBlankLine(s: Syms, j: int, k: int)
    requires j < k && !IsNewline(s, k) && !IsBlank(s, k)
    requires forall i :: j < i < k ==> IsBlank(s, i)
    ensures !BreakAt(s, j)
  {
    forall m | j < m && IsNewline(s, m) ensures exists i :: j < i < m && !IsBlank(s, i) {
      assert m < k ==> IsBlank(s, m);
      assert !IsBlank(s, k);
    }
  }

  /** The forward search for a closing run of exactly k; -1 when there is none. */
  method FindCloser(s: Syms, from: nat, k: nat) returns (close: int)
    requires from <= |s| && k >= 1 && !IsTick(s, from)
    ensures close >= 0 ==> ClosesAt(s, from, k, close)
    ensures close < 0 ==> forall p :: !ClosesAt(s, from, k, p)
  {
    var j := from;
    while j < |s|
      invariant from <= j <= |s|
      invariant forall q :: from <= q < j ==> !RunAt(s, q, k) && !BreakAt(s, q)
      invariant IsTick(s, j) ==> !IsTick(s, j - 1)
    {
      if s[j] == Ch('\n') {
        var stop := HasBlankLine(s, j);
        if stop {
          forall p ensures !ClosesAt(s, from, k, p) {
            assert BreakAt(s, j) && !IsTick(s, j);
          }
          return -1;
        }
      }
      if s[j] == Ch('`') {
        var runStart := j;
        j := SkipTicks(s, j);
        if j - runStart == k {
          return runStart;
        }
        OtherRunsInside(s, runStart, j - runStart, k);
      } else {
        assert !RunAt(s, j, k);
        j := j + 1;
      }
    }
    return -1;
  }

  /** Inside a maximal run of another length no run of k starts and no line breaks. */
  lemma OtherRunsInside(s: Syms, p: nat, n: nat, k: nat)
    requires RunAt(s, p, n) && n != k
    ensures forall q :: p <= q < p + n ==> !RunAt(s, q, k) && !BreakAt(s, q)
  {
    forall q | p <= q < p + n ensures !RunAt(s, q, k) && !BreakAt(s, q) {
      assert IsTick(s, q);
      assert q > p ==> IsTick(s, q - 1);
      assert q == p && k < n ==> IsTick(s, p + k);
      assert !IsTick(s, p + n);
    }
  }

  lemma NoTickNoSpan(s: Syms, i: nat)
    requires !IsTick(s, i)
    ensures StartsNoSpan(s, i)
  {
    forall k: nat, p: nat ensures !IsSpan(s, Span(i, k, p)) {
      assert RunAt(s, i, k) ==> IsTick(s, i);
    }
  }

  /** The literal backticks of a run that opens no span start no span. */
  lemma RunStartsNoSpan(s: Syms, start: nat, k: nat, from: nat)
    requires RunAt(s, start, k) && from == start + k && forall p :: !ClosesAt(s, from, k, p)
    ensures forall q: nat :: start <= q < start + k ==> StartsNoSpan(s, q)
  {
    forall q: nat, n: nat, p: nat | start <= q < start + k ensures !IsSpan(s, Span(q, n, p)) {
      assert q > start ==> IsTick(s, q - 1);
      if q == start && RunAt(s, start, n) {
        RunLengthUnique(s, start, k, n);
      }
    }
  }

  /** Opening run and closing search at a backtick. */
  method ScanSpan(s: Syms, i: nat) returns (k: nat, close: int)
    requires IsTick(s, i) && !IsTick(s, i - 1)
    ensures k >= 1 && i + k <= |s| && !IsTick(s, i + k)
    ensures close >= 0 ==> IsSpan(s, Span(i, k, close)) && close + k <= |s| && !IsTick(s, close + k)
    ensures close < 0 ==> forall q: nat :: i <= q < i + k ==> StartsNoSpan(s, q)
  {
    var j := SkipTicks(s, i);
    k := j - i;
    close := FindCloser(s, j, k);
    if close < 0 {
      RunStartsNoSpan(s, i, k, j);
    }
  }

  // ---- The spans of a text, left to right ----

  /** `spans` are the spans that start before i: any list from i on completes them. */
  ghost predicate Scanned(s: Syms, spans: seq<Span>, i: nat) {
    forall rest: seq<Span> :: IsSpanList(s, i, rest) ==> IsSpanList(s, 0, spans + rest)
  }

  /** The spans lie in order inside s[..upTo]. */
  predicate InOrder(s: Syms, spans: seq<Span>, upTo: nat)
    decreases |spans|
  {
    upTo <= |s| &&
    (spans != [] ==>
      var last := spans[|spans| - 1];
      last.start <= last.close && last.End() <= upTo && InOrder(s, spans[..|spans| - 1], last.start))
  }

  /** s[..upTo] with its spans replaced by tokens next, next + 1, ...; the rest verbatim. */
  function Shielded(s: Syms, spans: seq<Span>, upTo: nat, next: nat): Syms
    requires InOrder(s, spans, upTo)
    decreases |spans|
  {
    if spans == [] then s[..upTo]
    else
      var n := |spans| - 1;
      Shielded(s, spans[..n], spans[n].start, next) + [Tok(next + n)] + s[spans[n].End()..upTo]
  }

  /** `out` is s[..i] with its spans shielded. */
  predicate Emitted(s: Syms, spans: seq<Span>, i: nat, next: nat, out: Syms) {
    InOrder(s, spans, i) && out == Shielded(s, spans, i, next)
  }

  lemma EmittedCopy(s: Syms, spans: seq<Span>, i: nat, j: nat, next: nat, out: Syms, out': Syms)
    requires Emitted(s, spans, i, next, out) && i <= j <= |s| && out' == out + s[i..j]
    ensures Emitted(s, spans, j, next, out')
  {
    if spans == [] {
      assert s[..j] == s[..i] + s[i..j];
    } else {
      var n := |spans| - 1;
      var front := Shielded(s, spans[..n], spans[n].start, next) + [Tok(next + n)];
      assert s[spans[n].End()..j] == s[spans[n].End()..i] + s[i..j];
      assert front + (s[spans[n].End()..i] + s[i..j]) == front + s[spans[n].End()..i] + s[i..j];
    }
  }

  lemma EmittedTake(s: Syms, spans: seq<Span>, more: seq<Span>, sp: Span, next: nat, out: Syms, out': Syms)
    requires Emitted(s, spans, sp.start, next, out) && sp.start <= sp.close && sp.End() <= |s|
    requires more == spans + [sp] && out' == out + [Tok(next + |spans|)]
    ensures Emitted(s, more, sp.End(), next, out')
  {
    assert more[..|spans|] == spans;
    assert s[sp.End()..sp.End()] == [];
    assert out' + [] == out';
  }

  lemma ScannedCopy(s: Syms, spans: seq<Span>, i: nat, j: nat)
    requires Scanned(s, spans, i) && i <= j && forall q: nat :: i <= q < j ==> StartsNoSpan(s, q)
    ensures Scanned(s, spans, j)
  {
    forall rest | IsSpanList(s, j, rest) ensures IsSpanList(s, 0, spans + rest) {
      assert forall q: nat :: j <= q || q < i || StartsNoSpan(s, q);
      assert IsSpanList(s, i, rest);
    }
  }

  lemma ScannedTake(s: Syms, spans: seq<Span>, sp: Span)
    requires Scanned(s, spans, sp.start) && IsSpan(s, sp)
    ensures Scanned(s, spans + [sp], sp.End())
  {
    forall rest | IsSpanList(s, sp.End(), rest) ensures IsSpanList(s, 0, spans + [sp] + rest) {
      assert ([sp] + rest)[1..] == rest;
      assert IsSpanList(s, sp.start, [sp] + rest);
      assert spans + [sp] + rest == spans + ([sp] + rest);
    }
  }

  lemma ScannedStart(s: Syms)
    ensures Scanned(s, [], 0)
  {
    assert forall rest: seq<Span> :: [] + rest == rest;
  }

  /** A scanner that reaches the end has exactly the spans of the specification. */
  lemma ScannedAll(s: Syms, spans: seq<Span>)
    requires Scanned(s, spans, |s|)
    ensures IsSpanList(s, 0, spans)
  {
    forall q: nat | |s| <= q ensures StartsNoSpan(s, q) {
      NoTickNoSpan(s, q);
    }
    assert IsSpanList(s, |s|, []);
    assert spans + [] == spans;
  }

  /** Where the scanner goes from i: past copied text, or past a span. */
  datatype Piece = Copy(upTo: nat) | Take(span: Span) {
    function End(): nat {
      if Copy? then upTo else span.End()
    }
  }

  predicate NotInsideRun(s: Syms, i: nat) {
    IsTick(s, i) ==> !IsTick(s, i - 1)
  }

  /** One turn of the scanner: copy a character, copy an unclosed run, or take a span. */
  method NextPiece(s: Syms, i: nat, ghost spans: seq<Span>) returns (p: Piece, ghost more: seq<Span>)
    requires i < |s| && NotInsideRun(s, i) && Scanned(s, spans, i)
    ensures i < p.End() <= |s| && NotInsideRun(s, p.End())
    ensures p.Take? ==> p.span.start == i && i + p.span.ticks <= p.span.close
    ensures Scanned(s, more, p.End()) && more == if p.Take? then spans + [p.span] else spans
  {
    more := spans;
    if s[i] != Ch('`') {
      NoTickNoSpan(s, i);
      ScannedCopy(s, spans, i, i + 1);
      return Copy(i + 1), spans;
    }
    var k, close := ScanSpan(s, i);
    if close >= 0 {
      ScannedTake(s, spans, Span(i, k, close));
      p, more := Take(Span(i, k, close)), spans + [Span(i, k, close)];
    } else {
      ScannedCopy(s, spans, i, i + k);
      p := Copy(i + k);
    }
  }

  // ---- The two copies ----

  function RawSpan(s: Syms, sp: Span): Syms {
    if sp.start <= sp.End() <= |s| then s[sp.start..sp.End()] else []
  }

  /** The content of a span: one blank is dropped at each end unless all is blank. */
  function Strip(raw: Syms): Syms {
    if |raw| >= 2 && raw[0] == Ch(' ') && raw[|raw| - 1] == Ch(' ') && exists i :: 0 <= i < |raw| && raw[i] != Ch(' ')
    then raw[1..|raw| - 1] else raw
  }

  predicate AllBlank(s: Syms) {
    forall i :: 0 <= i < |s| ==> s[i] == Ch(' ')
  }

  /** What a code span of CommonMark contains: its text between two blanks when it has one at each
      end and something else in it, and its text otherwise. */
  predicate IsStripped(raw: Syms, inner: Syms) {
    if raw == [Ch(' ')] + inner + [Ch(' ')] then !AllBlank(inner)
    else inner == raw && (AllBlank(raw) || raw[0] != Ch(' ') || raw[|raw| - 1] != Ch(' '))
  }

  lemma StripIff(raw: Syms, inner: Syms)
    ensures IsStripped(raw, inner) <==> inner == Strip(raw)
  {
    var blank := [Ch(' ')];
    if |raw| >= 2 && raw[0] == Ch(' ') && raw[|raw| - 1] == Ch(' ') {
      assert raw == blank + raw[1..|raw| - 1] + blank;
      assert AllBlank(raw[1..|raw| - 1]) ==> AllBlank(raw);
    }
    if raw == blank + inner + blank {
      assert inner == raw[1..|raw| - 1];
      assert forall i :: 0 <= i < |inner| ==> inner[i] == raw[i + 1];
    }
  }

  function CodeHtml(s: Syms, sp: Span): Syms {
    if sp.start + sp.ticks <= sp.close <= |s|
    then Plain("<code>") + EscapeHtml(Strip(s[sp.start + sp.ticks..sp.close])) + Plain("</code>") else []
  }

  /** What the two copies store for a span. */
  function RawOf(s: Syms): Span -> Syms {
    sp => RawSpan(s, sp)
  }

  function HtmlOf(s: Syms): Span -> Syms {
    sp => CodeHtml(s, sp)
  }

  function Contents(spans: seq<Span>, content: Span -> Syms): (contents: seq<Syms>)
    ensures |contents| == |spans|
  {
    if spans == [] then [] else Contents(spans[..|spans| - 1], content) + [content(spans[|spans| - 1])]
  }

  lemma AppendContent(spans: seq<Span>, more: seq<Span>, sp: Span, content: Span -> Syms)
    requires more == spans + [sp]
    ensures Contents(more, content) == Contents(spans, content) + [content(sp)]
  {
    assert more[..|spans|] == spans;
  }

  /** The scanner before position i: what it wrote and stored for the spans so far. */
  ghost predicate Shielding(s: Syms, next: nat, content: Span -> Syms, i: nat, out: Syms, contents: seq<Syms>,
                            spans: seq<Span>) {
    && i <= |s| && NotInsideRun(s, i)
    && Scanned(s, spans, i)
    && Emitted(s, spans, i, next, out)
    && contents == Contents(spans, content)
  }

  lemma ShieldingCopy(s: Syms, next: nat, content: Span -> Syms, i: nat, out: Syms, contents: seq<Syms>,
                      spans: seq<Span>, upTo: nat, out': Syms)
    requires Shielding(s, next, content, i, out, contents, spans) && i <= upTo <= |s| && NotInsideRun(s, upTo)
    requires Scanned(s, spans, upTo) && out' == out + s[i..upTo]
    ensures Shielding(s, next, content, upTo, out', contents, spans)
  {
    EmittedCopy(s, spans, i, upTo, next, out, out');
  }

  lemma ShieldingTake(s: Syms, next: nat, content: Span -> Syms, i: nat, out: Syms, contents: seq<Syms>,
                      spans: seq<Span>, sp: Span, more: seq<Span>, out': Syms, contents': seq<Syms>)
    requires Shielding(s, next, content, i, out, contents, spans)
    requires sp.start == i && i <= sp.close && sp.End() <= |s| && NotInsideRun(s, sp.End())
    requires Scanned(s, more, sp.End()) && more == spans + [sp]
    requires out' == out + [Tok(next + |contents|)] && contents' == contents + [content(sp)]
    ensures Shielding(s, next, content, sp.End(), out', contents', more)
  {
    EmittedTake(s, spans, more, sp, next, out, out');
    AppendContent(spans, more, sp, content);
  }

  /** `out` is s with exactly the specified spans replaced by tokens from `next` on that
      stand for `contents`, and everything else copied. */
  ghost predicate Shields(s: Syms, next: nat, content: Span -> Syms, out: Syms, contents: seq<Syms>) {
    exists spans: seq<Span> :: IsSpanList(s, 0, spans) && Holds(s, next, content, out, contents, spans)
  }

  ghost predicate Holds(s: Syms, next: nat, content: Span -> Syms, out: Syms, contents: seq<Syms>, spans: seq<Span>) {
    Emitted(s, spans, |s|, next, out) && contents == Contents(spans, content)
  }

  /** The scanner loop, which the source has twice: the shielded text and what is stored
      for its spans, in the order of creation. */
  method ShieldSpans(s: Syms, next: nat, content: Span -> Syms) returns (out: Syms, contents: seq<Syms>)
    ensures Shields(s, next, content, out, contents)
  {
    out, contents := [], [];
    ghost var spans: seq<Span> := [];
    var i := 0;
    ScannedStart(s);
    while i < |s|
      invariant Shielding(s, next, content, i, out, contents, spans)
    {
      ghost var more;
      var p;
      p, more := NextPiece(s, i, spans);
      if p.Take? {
        var longer, held := out + [Tok(next + |contents|)], contents + [content(p.span)];
        ShieldingTake(s, next, content, i, out, contents, spans, p.span, more, longer, held);
        out, contents := longer, held;
      } else {
        var longer := out + s[i..p.upTo];
        ShieldingCopy(s, next, content, i, out, contents, spans, p.upTo, longer);
        out := longer;
      }
      spans := more;
      i := p.End();
    }
    ScannedAll(s, spans);
    assert Holds(s, next, content, out, contents, spans);
  }

  /** Main result: the span loop of shieldMarkdownCodeBlocksRaw replaces exactly the
      specified spans by fresh tokens that hold them as they were written, and copies
      everything else. */
  method ShieldSpansRaw(s: Syms, store: Store, next: nat) returns (out: Syms, store': Store)
    ensures exists contents ::
      Shields(s, next, RawOf(s), out, contents) && store' == AddAll(store, next, contents)
  {
    var contents;
    out, contents := ShieldSpans(s, next, RawOf(s));
    store' := AddAll(store, next, contents);
  }

  /** Main result: shieldInlineCodeSpans takes exactly the specified spans too, and holds
      each as an escaped code element. */
  method ShieldInlineCodeSpans(s: Syms, store: Store, next: nat) returns (out: Syms, store': Store, next': nat)
    ensures exists contents ::
      Shields(s, next, HtmlOf(s), out, contents) && store' == AddAll(store, next, contents)
          && next' == next + |contents|
  {
    var contents;
    out, contents := ShieldSpans(s, next, HtmlOf(s));
    store', next' := AddAll(store, next, contents), next + |contents|;
  }

  // ---- Restoring ----

  lemma CodeHtmlEarlier(s: Syms, sp: Span, n: nat)
    requires EarlierOnly(s, n)
    ensures EarlierOnly(CodeHtml(s, sp), n)
  {
    if sp.start + sp.ticks <= sp.close <= |s| {
      var raw := s[sp.start + sp.ticks..sp.close];
      assert EarlierOnly(raw, n) by {
        assert forall i :: 0 <= i < |raw| ==> raw[i] == s[sp.start + sp.ticks + i];
      }
      EscapeKeepsTokens(Strip(raw), n);
    }
  }

  lemma RawSpanEarlier(s: Syms, sp: Span, n: nat)
    requires EarlierOnly(s, n)
    ensures EarlierOnly(RawSpan(s, sp), n)
  {
  }

  lemma {:induction false} ContentsEarlier(spans: seq<Span>, content: Span -> Syms, n: nat)
    requires forall sp :: EarlierOnly(content(sp), n)
    ensures forall i :: 0 <= i < |spans| ==> EarlierOnly(Contents(spans, content)[i], n)
  {
    if spans != [] {
      ContentsEarlier(spans[..|spans| - 1], content, n);
    }
  }

  lemma {:induction false} ShieldedEarlier(s: Syms, spans: seq<Span>, upTo: nat, next: nat)
    requires InOrder(s, spans, upTo) && EarlierOnly(s, next)
    ensures EarlierOnly(Shielded(s, spans, upTo, next), next + |spans|)
    decreases |spans|
  {
    if spans != [] {
      var n := |spans| - 1;
      ShieldedEarlier(s, spans[..n], spans[n].start, next);
      assert EarlierOnly(s[spans[n].End()..upTo], next);
    }
  }

  /** Expanding the shielded text gives the expansion of what was shielded. */
  lemma {:induction false} SpansRestore(s: Syms, spans: seq<Span>, upTo: nat, next: nat, store: Store)
    requires InOrder(s, spans, upTo) && Ordered(store)
    requires HoldsAt(store, next, Contents(spans, RawOf(s)))
    ensures Expand(Shielded(s, spans, upTo, next), store) == Expand(s[..upTo], store)
    decreases |spans|
  {
    if spans != [] {
      hide Expand;
      hide HoldsAt;
      var n := |spans| - 1;
      LastHolds(spans, RawOf(s), next, store);
      SpansRestore(s, spans[..n], spans[n].start, next, store);
      LastRestores(s, Shielded(s, spans[..n], spans[n].start, next), spans[n], upTo, next + n, store);
    }
  }

  lemma LastRestores(s: Syms, front: Syms, sp: Span, upTo: nat, id: nat, store: Store)
    requires sp.start <= sp.close && sp.End() <= upTo <= |s|
    requires Ordered(store) && id in store && store[id] == RawSpan(s, sp)
    requires Expand(front, store) == Expand(s[..sp.start], store)
    ensures Expand(front + [Tok(id)] + s[sp.End()..upTo], store) == Expand(s[..upTo], store)
  {
    TokenBetween(front, id, s[sp.End()..upTo], store);
    PrefixExpands(s, sp.start, sp.End(), upTo, store);
  }

  lemma TokenBetween(a: Syms, id: nat, b: Syms, store: Store)
    requires Ordered(store) && id in store
    ensures Expand(a + [Tok(id)] + b, store) == Expand(a, store) + Expand(store[id], store) + Expand(b, store)
  {
    ExpandConcat(a + [Tok(id)], b, store);
    ExpandConcat(a, [Tok(id)], store);
    ExpandOne(Tok(id), store);
  }

  lemma LastHolds(spans: seq<Span>, content: Span -> Syms, next: nat, store: Store)
    requires spans != [] && HoldsAt(store, next, Contents(spans, content))
    ensures var n := |spans| - 1;
            HoldsAt(store, next, Contents(spans[..n], content)) && next + n in store
                && store[next + n] == content(spans[n])
  {
  }

  lemma PrefixExpands(s: Syms, a: nat, b: nat, c: nat, store: Store)
    requires a <= b <= c <= |s| && Ordered(store)
    ensures Expand(s[..c], store) == Expand(s[..a], store) + Expand(s[a..b], store) + Expand(s[b..c], store)
  {
    ExpandConcat(s[..a], s[a..b], store);
    ExpandConcat(s[..b], s[b..c], store);
    assert s[..b] == s[..a] + s[a..b] && s[..c] == s[..b] + s[b..c];
  }
}
