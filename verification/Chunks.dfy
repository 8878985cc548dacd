/** SplitHTMLChunks (formatters.go): packing paragraphs into raw chunks, and the whole
    pipeline from text to sanitised chunks. */
module Chunks {
  import opened Text
  import opened Splitter
  import opened Sanitizer

  const SEPARATOR := "\n\n"

  // ---- strings.Split and strings.Join on "\n\n" ----

  function FirstPair(text: string): (i: int)
    ensures -1 <= i
    ensures i >= 0 ==> i + 1 < |text| && text[i] == '\n' && text[i + 1] == '\n'
  {
    if |text| < 2 then -1
    else if text[0] == '\n' && text[1] == '\n' then 0
    else var i := FirstPair(text[1..]); if i < 0 then -1 else i + 1
  }

  function Paragraphs(text: string): (ps: seq<string>)
    ensures ps != []
    decreases |text|
  {
    var i := FirstPair(text);
    if i < 0 then [text] else [text[..i]] + Paragraphs(text[i + 2..])
  }

  function Join(ps: seq<string>): string {
    if ps == [] then []
    else if |ps| == 1 then ps[0]
    else Join(ps[..|ps| - 1]) + SEPARATOR + ps[|ps| - 1]
  }

  predicate PairAt(p: string, i: nat) {
    i + 1 < |p| && p[i] == '\n' && p[i + 1] == '\n'
  }

  lemma {:induction false} FirstPairIs(text: string)
    ensures FirstPair(text) >= 0 ==> PairAt(text, FirstPair(text))
    ensures forall i: nat :: i < FirstPair(text) || FirstPair(text) < 0 ==> !PairAt(text, i)
  {
    if |text| >= 2 && !PairAt(text, 0) {
      FirstPairIs(text[1..]);
      forall i: nat | i < FirstPair(text) || FirstPair(text) < 0 ensures !PairAt(text, i) {
        assert i > 0 ==> PairAt(text, i) == PairAt(text[1..], i - 1);
      }
    }
  }

  /** The pieces of a text at its blank lines, from the left: no piece holds a blank line, and one
      that is followed by another does not end in a newline. */
  ghost predicate CutAtPairs(ps: seq<string>) {
    && (forall k, i: nat :: 0 <= k < |ps| ==> !PairAt(ps[k], i))
    && forall k :: 0 <= k < |ps| - 1 && ps[k] != "" ==> ps[k][|ps[k]| - 1] != '\n'
  }

  function JoinRight(ps: seq<string>): string {
    if ps == [] then "" else if |ps| == 1 then ps[0] else ps[0] + SEPARATOR + JoinRight(ps[1..])
  }

  /** Main result: the paragraphs are those pieces, and they join to the text. */
  lemma {:induction false} ParagraphsAre(text: string)
    ensures JoinRight(Paragraphs(text)) == text && CutAtPairs(Paragraphs(text))
    decreases |text|
  {
    FirstPairIs(text);
    var i := FirstPair(text);
    if i < 0 {
      assert Paragraphs(text) == [text];
    } else {
      var first, rest := text[..i], text[i + 2..];
      ParagraphsAre(rest);
      hide FirstPair;
      assert text == first + SEPARATOR + rest;
      forall j: nat ensures !PairAt(first, j) {
        assert PairAt(first, j) ==> PairAt(text, j);
      }
      assert first != "" ==> first[i - 1] == text[i - 1] && !PairAt(text, i - 1);
      MoreParagraphs(first, Paragraphs(rest));
    }
  }

  lemma MoreParagraphs(first: string, ps: seq<string>)
    requires ps != [] && CutAtPairs(ps) && (forall j: nat :: !PairAt(first, j))
    requires first != "" ==> first[|first| - 1] != '\n'
    ensures CutAtPairs([first] + ps) && JoinRight([first] + ps) == first + SEPARATOR + JoinRight(ps)
  {
    hide PairAt;
    assert ([first] + ps)[1..] == ps;
  }

  // ---- The packing loop ----

  datatype Packing = Packing(raws: seq<string>, current: seq<string>, length: int)

  function Flushed(st: Packing): Packing {
    if st.current == [] then st else Packing(st.raws + [Join(st.current)], [], 0)
  }

  function PartsOf(p: string, limit: int): seq<string> {
    if p == [] && limit >= 0 then [[]] else Parts(p, limit)
  }

  function AddParts(st: Packing, parts: seq<string>): Packing {
    if parts == [] then st
    else
      var last := parts[|parts| - 1];
      var st' := st.(raws := st.raws + parts[..|parts| - 1]);
      if last == [] then st' else Packing(st'.raws, st'.current + [last], Utf16Len(last))
  }

  function PackStep(st: Packing, p: string, limit: int): Packing {
    if st.length + Utf16Len(p) + 2 > limit then AddParts(Flushed(st), PartsOf(p, limit))
    else Packing(st.raws, st.current + [p], st.length + Utf16Len(p) + 2)
  }

  function Packed(ps: seq<string>, limit: int): Packing {
    if ps == [] then Packing([], [], 0)
    else PackStep(Packed(ps[..|ps| - 1], limit), ps[|ps| - 1], limit)
  }

  function RawChunks(ps: seq<string>, limit: int): seq<string> {
    Flushed(Packed(ps, limit)).raws
  }

  method PackParagraphs(ps: seq<string>, limit: int) returns (raws: seq<string>)
    ensures raws == RawChunks(ps, limit)
    ensures exists load :: Filled(load, ps, limit) && raws == AllChunks(load, limit)
  {
    raws := [];
    var current: seq<string> := [];
    var length := 0;
    for k := 0 to |ps|
      invariant Packing(raws, current, length) == Packed(ps[..k], limit)
    {
      assert ps[..k + 1][..k] == ps[..k];
      var p := ps[k];
      if length + Utf16Len(p) + 2 > limit {
        if |current| > 0 {
          raws := raws + [Join(current)];
          current := [];
          length := 0;
        }
        var parts := SplitOversizedParagraph(p, limit);
        raws, current, length := TakeParts(raws, current, length, parts);
      } else {
        current := current + [p];
        length := length + Utf16Len(p) + 2;
      }
    }
    assert ps[..|ps|] == ps;
    if |current| > 0 {
      raws := raws + [Join(current)];
    }
    ghost var load := RawChunksGreedy(ps, limit);
  }

  /** The loop over the parts of an oversized paragraph. */
  method TakeParts(raws0: seq<string>, current0: seq<string>, length0: int, parts: seq<string>)
    returns (raws: seq<string>, current: seq<string>, length: int)
    ensures Packing(raws, current, length) == AddParts(Packing(raws0, current0, length0), parts)
  {
    raws, current, length := raws0, current0, length0;
    for i := 0 to |parts|
      invariant i == 0 || i < |parts| ==> raws == raws0 + parts[..i] && current == current0 && length == length0
      invariant i > 0 && i == |parts| ==>
        Packing(raws, current, length) == AddParts(Packing(raws0, current0, length0), parts)
    {
      if i < |parts| - 1 {
        assert parts[..i + 1] == parts[..i] + [parts[i]];
        raws := raws + [parts[i]];
      } else if |parts[i]| > 0 {
        current := current + [parts[i]];
        length := Utf16Len(parts[i]);
      }
    }
  }

  lemma JoinAppend(ps: seq<string>, p: string)
    ensures Join(ps + [p]) == if ps == [] then p else Join(ps) + SEPARATOR + p
    ensures Utf16Len(Join(ps + [p])) == if ps == [] then Utf16Len(p) else Utf16Len(Join(ps)) + 2 + Utf16Len(p)
  {
    assert (ps + [p])[..|ps|] == ps;
    Utf16LenConcat(Join(ps), SEPARATOR);
    Utf16LenConcat(Join(ps) + SEPARATOR, p);
    assert Utf16Len(SEPARATOR[1..]) == 1;
  }

  ghost predicate WithinLimit(raws: seq<string>, limit: int) {
    forall i :: 0 <= i < |raws| ==> Utf16Len(raws[i]) <= limit
  }

  ghost predicate Bounded(st: Packing, limit: int) {
    && WithinLimit(st.raws, limit)
    && if st.current == [] then st.length == 0 else Utf16Len(Join(st.current)) <= st.length <= limit
  }

  lemma AddPartsBounded(st: Packing, parts: seq<string>, limit: int)
    requires Bounded(st, limit) && st.current == [] && WithinLimit(parts, limit)
    ensures Bounded(AddParts(st, parts), limit)
  {
    if parts != [] && parts[|parts| - 1] != [] {
      var last := parts[|parts| - 1];
      assert Join([] + [last]) == last;
    }
  }

  lemma PartsOfWithinLimit(p: string, limit: int)
    requires limit >= 2
    ensures WithinLimit(PartsOf(p, limit), limit)
  {
    PartsCover(p, limit);
    forall i | 0 <= i < |Parts(p, limit)| ensures Utf16Len(Parts(p, limit)[i]) <= limit {
      assert Parts(p, limit)[i] in Parts(p, limit);
    }
  }

  lemma {:induction false} PackedWithinLimit(ps: seq<string>, limit: int)
    requires limit >= 2
    ensures Bounded(Packed(ps, limit), limit)
  {
    if ps != [] {
      var init, p := ps[..|ps| - 1], ps[|ps| - 1];
      PackedWithinLimit(init, limit);
      var st := Packed(init, limit);
      if st.length + Utf16Len(p) + 2 > limit {
        PartsOfWithinLimit(p, limit);
        assert Bounded(Flushed(st), limit);
        AddPartsBounded(Flushed(st), PartsOf(p, limit), limit);
      } else {
        JoinAppend(st.current, p);
      }
    }
  }

  /** Main result: every raw chunk fits the limit. */
  lemma RawChunksWithinLimit(ps: seq<string>, limit: int)
    requires limit >= 2
    ensures WithinLimit(RawChunks(ps, limit), limit)
  {
    PackedWithinLimit(ps, limit);
  }

  // ---- The packing is greedy ----

  /** The paragraphs in stretches. A stretch begins with nothing, or with a paragraph that did
      not fit into the one before it; the paragraphs in `rest` were added whole. */
  datatype Load = Begun(rest: seq<string>) | After(before: Load, first: string, rest: seq<string>)

  function Sources(load: Load): seq<string> {
    match load
    case Begun(rest) => rest
    case After(before, first, rest) => Sources(before) + [first] + rest
  }

  /** The parts of the paragraph the stretch begins with. */
  function FirstParts(load: Load, limit: int): seq<string> {
    if load.Begun? || load.first == "" then [] else Parts(load.first, limit)
  }

  /** All of them but the last are chunks of their own. */
  function Alone(load: Load, limit: int): seq<string> {
    var parts := FirstParts(load, limit);
    if parts == [] then [] else parts[..|parts| - 1]
  }

  /** The last of them and the paragraphs added to it are one chunk. */
  function Together(load: Load, limit: int): seq<string> {
    var parts := FirstParts(load, limit);
    (if parts == [] then [] else [parts[|parts| - 1]]) + load.rest
  }

  function Closed(load: Load, limit: int): seq<string> {
    if Together(load, limit) == [] then [] else [Join(Together(load, limit))]
  }

  function AllChunks(load: Load, limit: int): seq<string>
    decreases load, 1
  {
    ChunksBefore(load, limit) + Closed(load, limit)
  }

  function ChunksBefore(load: Load, limit: int): seq<string>
    decreases load, 0
  {
    (if load.Begun? then [] else AllChunks(load.before, limit)) + Alone(load, limit)
  }

  /** How full the open chunk is. One that began with nothing counts a separator after its end,
      so it is closed up to two units early. */
  function Fill(load: Load, limit: int): nat {
    if Together(load, limit) == [] then 0
    else Utf16Len(Join(Together(load, limit))) + if FirstParts(load, limit) == [] then 2 else 0
  }

  predicate Takes(load: Load, p: string, limit: int) {
    Fill(load, limit) + Utf16Len(p) + 2 <= limit
  }

  predicate TakenAt(load: Load, k: nat, limit: int)
    requires k < |load.rest|
  {
    Takes(load.(rest := load.rest[..k]), load.rest[k], limit)
  }

  predicate AllTaken(load: Load, limit: int) {
    forall k :: 0 <= k < |load.rest| ==> TakenAt(load, k, limit)
  }

  /** Every paragraph is added to the open chunk if and only if it fits there; otherwise it
      begins the next stretch. */
  predicate Greedy(load: Load, limit: int) {
    && AllTaken(load, limit)
    && (load.After? ==> Greedy(load.before, limit) && !Takes(load.before, load.first, limit))
  }

  ghost predicate Filled(load: Load, ps: seq<string>, limit: int) {
    Greedy(load, limit) && Sources(load) == ps
  }

  /** The last paragraph was added to the filling of the others, or did not fit there. */
  lemma LastTaken(load: Load, init: seq<string>, p: string, limit: int) returns (prev: Load)
    requires Filled(load, init + [p], limit)
    ensures Filled(prev, init, limit)
    ensures load == if Takes(prev, p, limit) then prev.(rest := prev.rest + [p]) else After(prev, p, [])
  {
    var ps, n := init + [p], |load.rest| - 1;
    assert ps[..|init|] == init && ps[|init|] == p;
    if load.rest != [] {
      prev := load.(rest := load.rest[..n]);
      assert load.rest == prev.rest + [load.rest[n]];
      DropLast(load, prev, n, limit);
      assert Sources(load) == Sources(prev) + [load.rest[n]];
      assert Sources(load)[..|Sources(prev)|] == Sources(prev);
    } else {
      prev := load.before;
      assert Sources(load) == Sources(prev) + [load.first];
      assert Sources(load)[..|Sources(prev)|] == Sources(prev);
    }
  }

  lemma DropLast(load: Load, prev: Load, n: nat, limit: int)
    requires Greedy(load, limit) && n == |load.rest| - 1 && prev == load.(rest := load.rest[..n])
    ensures Greedy(prev, limit) && Takes(prev, load.rest[n], limit)
    ensures Sources(load) == Sources(prev) + [load.rest[n]]
  {
    SourcesLast(load, prev, n);
    hide Takes;
    hide Sources;
    assert TakenAt(load, n, limit);
    forall k | 0 <= k < |prev.rest| ensures TakenAt(prev, k, limit) {
      assert prev.rest[..k] == load.rest[..k];
      assert TakenAt(load, k, limit);
    }
  }

  lemma SourcesLast(load: Load, prev: Load, n: nat)
    requires n == |load.rest| - 1 && prev == load.(rest := load.rest[..n])
    ensures Sources(load) == Sources(prev) + [load.rest[n]]
  {
    assert load.rest == load.rest[..n] + [load.rest[n]];
    if load.After? {
      var head := Sources(load.before) + [load.first];
      assert head + (load.rest[..n] + [load.rest[n]]) == head + load.rest[..n] + [load.rest[n]];
    }
  }

  lemma NothingFilled(load: Load, limit: int)
    requires Filled(load, [], limit)
    ensures load == Begun([])
  {
  }

  /** There is one such way to fill the chunks, so Filled says what the raw chunks are. */
  lemma {:induction false} FilledOnce(a: Load, b: Load, ps: seq<string>, limit: int)
    requires Filled(a, ps, limit) && Filled(b, ps, limit)
    ensures a == b
    decreases |ps|
  {
    hide Filled;
    hide Takes;
    if ps == [] {
      NothingFilled(a, limit);
      NothingFilled(b, limit);
    } else {
      var init, p := ps[..|ps| - 1], ps[|ps| - 1];
      assert ps == init + [p];
      var x := LastTaken(a, init, p, limit);
      var y := LastTaken(b, init, p, limit);
      FilledOnce(x, y, init, limit);
    }
  }

  /** The state of the packing loop while a stretch is filled. */
  ghost predicate Loaded(st: Packing, load: Load, limit: int) {
    st == Packing(ChunksBefore(load, limit), Together(load, limit), Fill(load, limit))
  }

  lemma TogetherGrows(load: Load, more: Load, p: string, limit: int)
    requires more == load.(rest := load.rest + [p])
    ensures Together(more, limit) == Together(load, limit) + [p]
    ensures ChunksBefore(more, limit) == ChunksBefore(load, limit)
    ensures Fill(more, limit) == Fill(load, limit) + Utf16Len(p) + 2
  {
    var parts := FirstParts(load, limit);
    assert FirstParts(more, limit) == parts;
    var head := if parts == [] then [] else [parts[|parts| - 1]];
    assert head + (load.rest + [p]) == (head + load.rest) + [p];
    JoinAppend(head + load.rest, p);
  }

  lemma GreedyMore(load: Load, more: Load, p: string, limit: int)
    requires Greedy(load, limit) && more == load.(rest := load.rest + [p]) && Takes(load, p, limit)
    ensures Greedy(more, limit) && Sources(more) == Sources(load) + [p]
  {
    AllTakenMore(load, more, p, limit);
    SourcesMore(load, more, p);
    hide Sources, AllTaken, Takes;
  }

  lemma AllTakenMore(load: Load, more: Load, p: string, limit: int)
    requires AllTaken(load, limit) && more == load.(rest := load.rest + [p]) && Takes(load, p, limit)
    ensures AllTaken(more, limit)
  {
    hide TakenAt, Takes;
    forall k | 0 <= k < |more.rest| ensures TakenAt(more, k, limit) {
      TakenStays(load, more, p, k, limit);
    }
  }

  lemma SourcesMore(load: Load, more: Load, p: string)
    requires more == load.(rest := load.rest + [p])
    ensures Sources(more) == Sources(load) + [p]
  {
    assert more.rest[..|load.rest|] == load.rest;
    SourcesLast(more, load, |load.rest|);
  }

  lemma TakenStays(load: Load, more: Load, p: string, k: nat, limit: int)
    requires more == load.(rest := load.rest + [p]) && k < |more.rest|
    requires if k < |load.rest| then TakenAt(load, k, limit) else Takes(load, p, limit)
    ensures TakenAt(more, k, limit)
  {
    hide Takes;
    if k < |load.rest| {
      assert more.rest[..k] == load.rest[..k];
    } else {
      assert more.rest[..k] == load.rest;
    }
  }

  lemma NextParts(p: string, limit: int)
    requires p != ""
    ensures Parts(p, limit) != [] && forall i :: 0 <= i < |Parts(p, limit)| ==> Parts(p, limit)[i] != ""
  {
    PartsFit(p, limit);
    assert forall i :: 0 <= i < |Parts(p, limit)| ==> Parts(p, limit)[i] in Parts(p, limit);
  }

  lemma NextLoaded(load: Load, p: string, limit: int)
    ensures var next := After(load, p, []);
      Loaded(AddParts(Packing(AllChunks(load, limit), [], 0), PartsOf(p, limit)), next, limit)
  {
    var raws, next := AllChunks(load, limit), After(load, p, []);
    if p != "" {
      NextParts(p, limit);
      var parts := Parts(p, limit);
      var last := parts[|parts| - 1];
      assert Together(next, limit) == [last] && [] + [last] == [last] && Join([last]) == last;
    } else {
      assert raws + [] == raws;
    }
  }

  lemma FlushIs(st: Packing, load: Load, limit: int)
    requires Loaded(st, load, limit)
    ensures Flushed(st) == Packing(AllChunks(load, limit), [], 0)
  {
    if st.current == [] {
      assert st.raws + [] == st.raws;
    }
  }

  lemma StepLoaded(st: Packing, load: Load, p: string, limit: int) returns (load': Load)
    requires Loaded(st, load, limit) && Greedy(load, limit)
    ensures Loaded(PackStep(st, p, limit), load', limit) && Greedy(load', limit)
    ensures Sources(load') == Sources(load) + [p]
  {
    if Takes(load, p, limit) {
      load' := load.(rest := load.rest + [p]);
      TogetherGrows(load, load', p, limit);
      GreedyMore(load, load', p, limit);
    } else {
      load' := After(load, p, []);
      FlushIs(st, load, limit);
      NextLoaded(load, p, limit);
      assert Sources(load) + [p] + [] == Sources(load) + [p];
    }
  }

  lemma NothingLoaded(limit: int)
    ensures Loaded(Packing([], [], 0), Begun([]), limit) && Filled(Begun([]), [], limit)
  {
  }

  lemma {:induction false} PackedIsLoaded(ps: seq<string>, limit: int) returns (load: Load)
    ensures Loaded(Packed(ps, limit), load, limit) && Filled(load, ps, limit)
  {
    hide Loaded;
    hide Greedy;
    hide PackStep;
    hide Sources;
    if ps == [] {
      load := Begun([]);
      NothingLoaded(limit);
    } else {
      var init, p := ps[..|ps| - 1], ps[|ps| - 1];
      load := PackedIsLoaded(init, limit);
      load := StepLoaded(Packed(init, limit), load, p, limit);
      assert init + [p] == ps;
    }
  }

  /** Main result: the raw chunks are those of the one greedy filling of the paragraphs. */
  lemma RawChunksGreedy(ps: seq<string>, limit: int) returns (load: Load)
    ensures Filled(load, ps, limit) && RawChunks(ps, limit) == AllChunks(load, limit)
  {
    load := PackedIsLoaded(ps, limit);
    FlushIs(Packed(ps, limit), load, limit);
  }

  /** A chunk of whole paragraphs is closed only when the next paragraph does not fit: with its
      separator it would exceed the limit, or, in the first chunk, come within two units. */
  lemma ClosedWhenFull(load: Load, next: string, limit: int)
    requires !Takes(load, next, limit) && (load.After? ==> load.first != "" && Utf16Len(load.first) <= limit)
    ensures var whole := (if load.After? then [load.first] else []) + load.rest;
      && Closed(load, limit) == (if whole == [] then [] else [Join(whole)])
      && (whole == [] ==> Utf16Len(next) + 2 > limit)
      && (whole != [] ==> Utf16Len(Join(whole)) + Utf16Len(next) + 4 > limit)
      && (load.After? ==> Utf16Len(Join(whole)) + Utf16Len(next) + 2 > limit)
  {
    if load.After? {
      assert FirstParts(load, limit) == [load.first];
    }
  }

  // ---- The raw chunks cover the text ----

  /** A chunk's segments and the number of separators dropped after it. */
  datatype Piece = Piece(group: seq<Segment>, gap: nat)

  const NEWLINE: Segment := Segment(Plain, "\n")

  function Newlines(n: nat): seq<Segment> {
    if n == 0 then [] else Newlines(n - 1) + [NEWLINE, NEWLINE]
  }

  function Laid(cover: seq<Piece>): seq<Segment> {
    if cover == [] then []
    else Laid(cover[..|cover| - 1]) + cover[|cover| - 1].group + Newlines(cover[|cover| - 1].gap)
  }

  ghost predicate Matches(cover: seq<Piece>, raws: seq<string>) {
    |cover| == |raws| && forall i :: 0 <= i < |raws| ==> Flatten(cover[i].group) == raws[i]
  }

  /** The segments are the chunks in order, with zero or more "\n\n" after each, and no
      chunk boundary inside a segment. */
  ghost predicate Covers(raws: seq<string>, segs: seq<Segment>) {
    exists cover: seq<Piece> :: Matches(cover, raws) && Laid(cover) == segs
  }

  function JoinSegments(groups: seq<seq<Segment>>): seq<Segment> {
    if groups == [] then []
    else if |groups| == 1 then groups[0]
    else JoinSegments(groups[..|groups| - 1]) + [NEWLINE, NEWLINE] + groups[|groups| - 1]
  }

  function Texts(groups: seq<seq<Segment>>): seq<string> {
    seq(|groups|, i requires 0 <= i < |groups| => Flatten(groups[i]))
  }

  lemma FlattenNewlines()
    ensures Flatten([NEWLINE, NEWLINE]) == SEPARATOR
  {
    assert [NEWLINE, NEWLINE][..1] == [NEWLINE];
    assert [NEWLINE][..0] == [];
    assert Flatten([NEWLINE]) == "\n";
  }

  lemma AddGap(cover: seq<Piece>, raws: seq<string>) returns (cover': seq<Piece>)
    requires cover != [] && Matches(cover, raws)
    ensures Matches(cover', raws) && Laid(cover') == Laid(cover) + [NEWLINE, NEWLINE]
  {
    var n := |cover| - 1;
    cover' := cover[..n] + [Piece(cover[n].group, cover[n].gap + 1)];
    assert cover'[..n] == cover[..n];
  }

  lemma AddPiece(cover: seq<Piece>, raws: seq<string>, group: seq<Segment>) returns (cover': seq<Piece>)
    requires Matches(cover, raws)
    ensures cover' != [] && Matches(cover', raws + [Flatten(group)])
    ensures Laid(cover') == Laid(cover) + group
  {
    cover' := cover + [Piece(group, 0)];
    assert cover'[..|cover|] == cover;
  }

  lemma AlignedHead(parts: seq<string>, segs: seq<Segment>) returns (head: seq<Segment>, tail: seq<Segment>)
    requires parts != [] && Aligned(parts, segs)
    ensures segs == head + tail && Flatten(head) == parts[0] && Aligned(parts[1..], tail)
    ensures |parts| == 1 ==> tail == []
  {
    var k: nat :| AlignedAt(parts, segs, k);
    head, tail := segs[..k], segs[k..];
  }

  lemma {:induction false} ConcatCons<T>(head: seq<T>, more: seq<seq<T>>)
    ensures Concat([head] + more) == head + Concat(more)
    decreases |more|
  {
    var n := |more|;
    if n == 0 {
      assert ([head] + more)[..0] == [] && ([head] + more)[0] == head;
    } else {
      assert ([head] + more)[..n] == [head] + more[..n - 1];
      ConcatCons(head, more[..n - 1]);
    }
  }

  ghost predicate Spell(groups: seq<seq<Segment>>, parts: seq<string>) {
    |groups| == |parts| && forall i :: 0 <= i < |parts| ==> Flatten(groups[i]) == parts[i]
  }

  lemma {:induction false} GroupsOf(parts: seq<string>, segs: seq<Segment>) returns (groups: seq<seq<Segment>>)
    requires Aligned(parts, segs)
    ensures Spell(groups, parts) && Concat(groups) == segs
    decreases |parts|
  {
    groups := [];
    if parts != [] {
      var head, tail := AlignedHead(parts, segs);
      var more := GroupsOf(parts[1..], tail);
      groups := [head] + more;
      ConcatCons(head, more);
    }
  }

  lemma {:induction false} AddGroups(cover: seq<Piece>, raws: seq<string>, groups: seq<seq<Segment>>,
                                     parts: seq<string>)
    returns (cover': seq<Piece>)
    requires Matches(cover, raws) && Spell(groups, parts)
    ensures Matches(cover', raws + parts)
    ensures Laid(cover') == Laid(cover) + Concat(groups)
    decreases |groups|
  {
    cover' := cover;
    if groups == [] {
      assert raws + parts == raws;
      assert Laid(cover) + [] == Laid(cover);
    } else {
      var n := |groups| - 1;
      var init, last := groups[..n], groups[n];
      var before := AddGroups(cover, raws, init, parts[..n]);
      cover' := AddPiece(before, raws + parts[..n], last);
      LastPart(raws, parts, n);
      RegroupLast(Laid(cover), Concat(init), last);
    }
  }

  lemma LastPart(raws: seq<string>, parts: seq<string>, n: nat)
    requires |parts| == n + 1
    ensures raws + parts[..n] + [parts[n]] == raws + parts
  {
  }

  lemma RegroupLast<T>(a: seq<T>, b: seq<T>, c: seq<T>)
    ensures a + b + c == a + (b + c)
  {
  }

  /** Aligned parts join the cover one by one; the last one is held back. */
  lemma AddAligned(cover: seq<Piece>, raws: seq<string>, parts: seq<string>, segs: seq<Segment>)
    returns (cover': seq<Piece>, rest: seq<Segment>)
    requires Matches(cover, raws) && parts != [] && Aligned(parts, segs)
    ensures Matches(cover', raws + parts[..|parts| - 1])
    ensures Laid(cover') + rest == Laid(cover) + segs && Flatten(rest) == parts[|parts| - 1]
  {
    var groups := GroupsOf(parts, segs);
    hide Aligned;
    hide Laid;
    var n := |groups| - 1;
    cover' := AddGroups(cover, raws, groups[..n], parts[..n]);
    rest := groups[n];
    Regroup(Laid(cover), Concat(groups[..n]), rest, []);
  }

  ghost predicate AllAligned(groups: seq<seq<Segment>>, limit: int) {
    forall i :: 0 <= i < |groups| ==> Aligned(Parts(Flatten(groups[i]), limit), groups[i])
  }

  /** The packing state covers what it has read: closed chunks, then the open one. */
  ghost predicate Tracks(st: Packing, cover: seq<Piece>, rest: seq<Segment>) {
    && Matches(cover, st.raws)
    && (if st.current == [] then rest == [] else Flatten(rest) == Join(st.current))
  }

  lemma FlushTracks(st: Packing, cover: seq<Piece>, rest: seq<Segment>) returns (cover': seq<Piece>)
    requires Tracks(st, cover, rest)
    ensures Tracks(Flushed(st), cover', []) && Laid(cover') == Laid(cover) + rest
    ensures st.current != [] || cover != [] ==> cover' != []
  {
    if st.current == [] {
      cover' := cover;
      assert Laid(cover) + [] == Laid(cover);
    } else {
      cover' := AddPiece(cover, st.raws, rest);
    }
  }

  /** A paragraph that does not fit: flush, then split it. */
  lemma OversizedTracks(st: Packing, cover: seq<Piece>, group: seq<Segment>, limit: int)
    returns (cover': seq<Piece>, rest': seq<Segment>)
    requires st.current == [] && Matches(cover, st.raws) && limit >= 2
    requires Aligned(Parts(Flatten(group), limit), group)
    requires Flatten(group) == [] ==> cover != []
    ensures var st' := AddParts(st, PartsOf(Flatten(group), limit));
            Tracks(st', cover', rest') && (st'.current == [] ==> cover' != [])
    ensures Laid(cover') + rest' == Laid(cover) + group
  {
    var p := Flatten(group);
    if p == [] {
      cover', rest' := cover, [];
      assert st.raws + [[]][..0] == st.raws;
    } else {
      var parts := Parts(p, limit);
      PartsCover(p, limit);
      assert parts != [];
      cover', rest' := AddAligned(cover, st.raws, parts, group);
      var last := parts[|parts| - 1];
      assert last in parts;
      assert FitsOrSingle(last, limit);
      assert Join([last]) == last;
    }
  }

  lemma JoinSegmentsStep(groups: seq<seq<Segment>>)
    requires groups != []
    ensures JoinSegments(groups) ==
      (if |groups| == 1 then [] else JoinSegments(groups[..|groups| - 1]) + [NEWLINE, NEWLINE]) + groups[|groups| - 1]
  {
  }

  /** One step of the loop keeps the cover; `gap` is what separates the paragraph from
      the text read so far. */
  lemma StepTracks(st: Packing, cover: seq<Piece>, rest: seq<Segment>, group: seq<Segment>, first: bool, limit: int)
    returns (cover': seq<Piece>, rest': seq<Segment>)
    requires Tracks(st, cover, rest) && Bounded(st, limit) && limit >= 2
    requires Aligned(Parts(Flatten(group), limit), group)
    requires if first then cover == [] && st.current == [] else st.current != [] || cover != []
    ensures var st' := PackStep(st, Flatten(group), limit);
            Tracks(st', cover', rest') && (st'.current == [] ==> cover' != [])
    ensures Laid(cover') + rest' == Laid(cover) + rest + Gap(first) + group
  {
    var p := Flatten(group);
    if st.length + Utf16Len(p) + 2 > limit {
      cover' := FlushTracks(st, cover, rest);
      if first {
        assert Laid(cover) + rest + Gap(first) == Laid(cover) + rest;
      } else {
        cover' := AddGap(cover', Flushed(st).raws);
      }
      cover', rest' := OversizedTracks(Flushed(st), cover', group, limit);
    } else {
      cover', rest' := AppendTracks(st, cover, rest, group, first);
    }
  }

  lemma FlattenJoined(rest: seq<Segment>, group: seq<Segment>)
    ensures Flatten(rest + [NEWLINE, NEWLINE] + group) == Flatten(rest) + SEPARATOR + Flatten(group)
  {
    FlattenNewlines();
    FlattenConcat(rest, [NEWLINE, NEWLINE]);
    FlattenConcat(rest + [NEWLINE, NEWLINE], group);
  }

  lemma Regroup<T>(a: seq<T>, b: seq<T>, c: seq<T>, d: seq<T>)
    ensures a + (b + c + d) == a + b + c + d
    ensures a + [] == a
  {
  }

  /** A paragraph that fits is appended to the open chunk. */
  lemma AppendTracks(st: Packing, cover: seq<Piece>, rest: seq<Segment>, group: seq<Segment>, first: bool)
    returns (cover': seq<Piece>, rest': seq<Segment>)
    requires Tracks(st, cover, rest)
    requires if first then cover == [] && st.current == [] else st.current != [] || cover != []
    ensures Matches(cover', st.raws) && Flatten(rest') == Join(st.current + [Flatten(group)])
    ensures Laid(cover') + rest' == Laid(cover) + rest + Gap(first) + group
  {
    JoinAppend(st.current, Flatten(group));
    Regroup(Laid(cover), rest, Gap(first), group);
    if first {
      cover', rest' := cover, group;
      assert Laid(cover) + rest + Gap(first) == [];
    } else if st.current == [] {
      cover' := AddGap(cover, st.raws);
      rest' := group;
    } else {
      FlattenJoined(rest, group);
      cover', rest' := cover, rest + [NEWLINE, NEWLINE] + group;
    }
  }

  function Gap(first: bool): seq<Segment> {
    if first then [] else [NEWLINE, NEWLINE]
  }

  lemma {:induction false} PackedTracks(groups: seq<seq<Segment>>, limit: int)
    returns (cover: seq<Piece>, rest: seq<Segment>)
    requires AllAligned(groups, limit) && limit >= 2
    ensures Tracks(Packed(Texts(groups), limit), cover, rest)
    ensures Laid(cover) + rest == JoinSegments(groups)
    ensures if groups == [] then cover == [] else Packed(Texts(groups), limit).current != [] || cover != []
  {
    cover, rest := [], [];
    if groups != [] {
      var init, group := groups[..|groups| - 1], groups[|groups| - 1];
      var st := Packed(Texts(init), limit);
      PackedStep(groups, init, group, limit);
      PackedWithinLimit(Texts(init), limit);
      JoinSegmentsStep(groups);
      var cover0, rest0 := PackedTracks(init, limit);
      cover, rest := StepTracks(st, cover0, rest0, group, init == [], limit);
    }
  }

  lemma PackedStep(groups: seq<seq<Segment>>, init: seq<seq<Segment>>, group: seq<Segment>, limit: int)
    requires groups != [] && init == groups[..|groups| - 1] && group == groups[|groups| - 1]
    ensures Packed(Texts(groups), limit) == PackStep(Packed(Texts(init), limit), Flatten(group), limit)
  {
    assert Texts(groups)[..|groups| - 1] == Texts(init);
  }

  /** Main result, by segments: the raw chunks cover the paragraphs in order. */
  lemma RawChunksCover(groups: seq<seq<Segment>>, limit: int)
    requires AllAligned(groups, limit) && limit >= 2
    ensures Covers(RawChunks(Texts(groups), limit), JoinSegments(groups))
  {
    var cover, rest := PackedTracks(groups, limit);
    cover := FlushTracks(Packed(Texts(groups), limit), cover, rest);
  }

  // ---- Splitting segments into paragraphs ----

  /** Text that neither starts nor ends with a newline and holds no blank line. */
  predicate Unpaired(t: string) {
    t != [] && t[0] != '\n' && t[|t| - 1] != '\n' && FirstPair(t) < 0
  }

  /** No segment but a newline of its own can be part of a blank line. */
  predicate BlankLinesPlain(segs: seq<Segment>) {
    forall i :: 0 <= i < |segs| ==> segs[i] == NEWLINE || Unpaired(segs[i].text)
  }

  /** Position of the first two newline segments in a row, or -1. */
  function FirstGap(segs: seq<Segment>): (k: int)
    ensures -1 <= k
    ensures k >= 0 ==> k + 1 < |segs| && segs[k] == NEWLINE && segs[k + 1] == NEWLINE
  {
    if |segs| < 2 then -1
    else if segs[0] == NEWLINE && segs[1] == NEWLINE then 0
    else var k := FirstGap(segs[1..]); if k < 0 then -1 else k + 1
  }

  /** The paragraphs, by segments. */
  function ParagraphGroups(segs: seq<Segment>): (groups: seq<seq<Segment>>)
    ensures groups != []
    decreases |segs|
  {
    var k := FirstGap(segs);
    if k < 0 then [segs] else [segs[..k]] + ParagraphGroups(segs[k + 2..])
  }

  lemma {:induction false} JoinSegmentsCons(head: seq<Segment>, more: seq<seq<Segment>>)
    requires more != []
    ensures JoinSegments([head] + more) == head + [NEWLINE, NEWLINE] + JoinSegments(more)
    decreases |more|
  {
    var n := |more|;
    JoinSegmentsStep([head] + more);
    JoinSegmentsStep(more);
    if n == 1 {
      assert ([head] + more)[..1] == [head];
    } else {
      assert ([head] + more)[..n] == [head] + more[..n - 1];
      JoinSegmentsCons(head, more[..n - 1]);
      Regroup(head + [NEWLINE, NEWLINE], JoinSegments(more[..n - 1]), [NEWLINE, NEWLINE], more[n - 1]);
    }
  }

  ghost predicate DrawnFrom(groups: seq<seq<Segment>>, segs: seq<Segment>) {
    forall i, j :: 0 <= i < |groups| && 0 <= j < |groups[i]| ==> groups[i][j] in segs
  }

  ghost predicate AreParagraphs(groups: seq<seq<Segment>>, segs: seq<Segment>) {
    && groups != [] && Texts(groups) == Paragraphs(Flatten(segs))
    && JoinSegments(groups) == segs && DrawnFrom(groups, segs)
  }

  lemma FirstParagraph(segs: seq<Segment>, head: seq<Segment>, tail: seq<Segment>, i: nat, more: seq<seq<Segment>>)
    requires FirstPair(Flatten(segs)) == i && segs == head + [NEWLINE, NEWLINE] + tail
    requires Flatten(head) == Flatten(segs)[..i] && Flatten(tail) == Flatten(segs)[i + 2..]
    requires AreParagraphs(more, tail)
    ensures AreParagraphs([head] + more, segs)
  {
    JoinSegmentsCons(head, more);
    DrawnFromCons(head, more, tail);
    TextsCons(head, more);
  }

  lemma TextsCons(head: seq<Segment>, more: seq<seq<Segment>>)
    ensures Texts([head] + more) == [Flatten(head)] + Texts(more)
  {
  }

  lemma DrawnFromCons(head: seq<Segment>, more: seq<seq<Segment>>, tail: seq<Segment>)
    requires DrawnFrom(more, tail)
    ensures DrawnFrom([head] + more, head + [NEWLINE, NEWLINE] + tail)
  {
    var segs := head + [NEWLINE, NEWLINE] + tail;
    assert forall s :: s in head || s in tail ==> s in segs;
    forall i, j | 0 <= i < |more| + 1 && 0 <= j < |([head] + more)[i]| ensures ([head] + more)[i][j] in segs {
      if i > 0 {
        assert more[i - 1][j] in tail;
      }
    }
  }

  lemma FlattenFront(segs: seq<Segment>)
    requires segs != []
    ensures Flatten(segs) == segs[0].text + Flatten(segs[1..])
  {
    FlattenSplit(segs, 1);
    assert segs[..1] == [] + [segs[0]];
    FlattenOne([], segs[0]);
  }

  lemma {:induction false} PairAfter(t: string, rest: string, s: string)
    requires s == t + rest && t != [] && t[|t| - 1] != '\n' && FirstPair(t) < 0
    ensures FirstPair(s) == if FirstPair(rest) < 0 then -1 else |t| + FirstPair(rest)
    decreases |t|
  {
    if |t| == 1 {
      assert s[1..] == rest;
    } else {
      assert s[1..] == t[1..] + rest && s[0] == t[0] && s[1] == t[1];
      PairAfter(t[1..], rest, s[1..]);
    }
  }

  lemma NewlineStart(segs: seq<Segment>)
    requires BlankLinesPlain(segs)
    ensures Flatten(segs) != [] && Flatten(segs)[0] == '\n' <==> segs != [] && segs[0] == NEWLINE
  {
    if segs != [] {
      FlattenFront(segs);
      assert segs[0] == NEWLINE || Unpaired(segs[0].text);
    }
  }

  /** The first blank line of the text is the first gap of the segments. */
  lemma {:induction false} GapIsPair(segs: seq<Segment>)
    requires BlankLinesPlain(segs)
    ensures FirstPair(Flatten(segs)) == if FirstGap(segs) < 0 then -1 else |Flatten(segs[..FirstGap(segs)])|
  {
    if segs != [] {
      var t, rest, tail := segs[0].text, Flatten(segs[1..]), segs[1..];
      FlattenFront(segs);
      assert segs[0] == NEWLINE || Unpaired(t);
      assert forall i :: 0 <= i < |tail| ==> tail[i] == segs[i + 1];
      GapIsPair(tail);
      NewlineStart(tail);
      if segs[0] == NEWLINE {
        assert Flatten(segs)[1..] == rest;
      } else {
        PairAfter(t, rest, Flatten(segs));
      }
      GapStep(segs, tail);
    }
  }

  lemma GapStep(segs: seq<Segment>, tail: seq<Segment>)
    requires segs != [] && tail == segs[1..]
    ensures FirstGap(segs) == (if |segs| > 1 && segs[0] == NEWLINE == segs[1] then 0
                               else if FirstGap(tail) < 0 then -1 else FirstGap(tail) + 1)
    ensures FirstGap(segs) == 0 ==> Flatten(segs[..FirstGap(segs)]) == []
    ensures FirstGap(segs) > 0 ==>
      Flatten(segs[..FirstGap(segs)]) == segs[0].text + Flatten(tail[..FirstGap(segs) - 1])
  {
    var k := FirstGap(segs);
    if k > 0 {
      FlattenFront(segs[..k]);
      assert segs[..k][1..] == tail[..k - 1];
    }
  }

  lemma OneParagraph(segs: seq<Segment>)
    requires FirstGap(segs) < 0 && FirstPair(Flatten(segs)) < 0
    ensures AreParagraphs(ParagraphGroups(segs), segs)
  {
    assert Texts([segs]) == [Flatten(segs)];
  }

  lemma {:induction false} GroupsAreParagraphs(segs: seq<Segment>)
    requires BlankLinesPlain(segs)
    ensures AreParagraphs(ParagraphGroups(segs), segs)
    decreases |segs|
  {
    hide Flatten;
    hide AreParagraphs;
    hide FirstPair;
    var k := FirstGap(segs);
    GapIsPair(segs);
    if k < 0 {
      OneParagraph(segs);
    } else {
      var tail := segs[k + 2..];
      assert forall i :: 0 <= i < |tail| ==> tail[i] == segs[i + k + 2];
      GroupsAreParagraphs(tail);
      AtGap(segs, k, tail);
      FirstParagraph(segs, segs[..k], tail, |Flatten(segs[..k])|, ParagraphGroups(tail));
    }
  }

  lemma AtGap(segs: seq<Segment>, k: nat, tail: seq<Segment>)
    requires k + 1 < |segs| && segs[k] == NEWLINE && segs[k + 1] == NEWLINE && tail == segs[k + 2..]
    ensures segs == segs[..k] + [NEWLINE, NEWLINE] + tail
    ensures var i := |Flatten(segs[..k])|;
      && i + 2 <= |Flatten(segs)| && Flatten(segs[..k]) == Flatten(segs)[..i] && Flatten(tail) == Flatten(segs)[i + 2..]
  {
    FlattenJoined(segs[..k], tail);
  }

  // ---- A blank line inside a tag ----

  lemma {:induction false} NoNewlineNoPair(t: string)
    requires '\n' !in t
    ensures FirstPair(t) < 0
  {
    if |t| >= 2 {
      NoNewlineNoPair(t[1..]);
    }
  }

  lemma TwoPacked(a: string, b: string, limit: int)
    requires b != "" && Utf16Len(b) <= limit
    requires Utf16Len(a) + 2 <= limit < Utf16Len(a) + Utf16Len(b) + 4
    ensures RawChunks([a, b], limit) == [a, b]
  {
    assert [a, b][..1] == [a] && [a][..0] == [];
    var one := Packing([], [a], Utf16Len(a) + 2);
    assert Packed([], limit) == Packing([], [], 0);
    assert Packed([a], limit) == one by { assert [] + [a] == [a]; }
    assert Join([a]) == a && Join([b]) == b;
    assert Flushed(one) == Packing([a], [], 0) by { assert [] + [a] == [a]; }
    assert PartsOf(b, limit) == [b] && [b][..0] == [];
    assert Packed([a, b], limit) == Packing([a], [b], Utf16Len(b)) by { assert [] + [b] == [b] && [a] + [] == [a]; }
    assert [a] + [b] == [a, b];
  }

  /** A tag with a blank line in a value, such as `<a href="u` and `v">` with two newlines
      between them, is sent in two halves when the limit falls there. */
  lemma BlankLineCutsTag(a: string, b: string, limit: int)
    requires '\n' !in a && '\n' !in b && b != "" && Utf16Len(b) <= limit
    requires Utf16Len(a) + 2 <= limit < Utf16Len(a) + Utf16Len(b) + 4
    ensures RawChunks(Paragraphs(a + SEPARATOR + b), limit) == [a, b]
  {
    var s := a + SEPARATOR + b;
    var rest := SEPARATOR + b;
    assert s == a + rest && FirstPair(rest) == 0;
    NoNewlineNoPair(a);
    if a != "" {
      PairAfter(a, rest, s);
    }
    NoNewlineNoPair(b);
    assert s[..|a|] == a && s[|a| + 2..] == b;
    assert Paragraphs(s) == [a] + [b] == [a, b];
    TwoPacked(a, b, limit);
  }

  // ---- Paragraphs that are not cut inside a segment ----

  /** The paragraph fits the limit, or none of its segments can be cut. */
  ghost predicate SafeParagraph(group: seq<Segment>, limit: int) {
    Utf16Len(Flatten(group)) <= limit || Cuttable(group, limit)
  }

  /** What is asked of a text: its blank lines are between segments, and each paragraph is
      safe. A tag with attributes may stand in any paragraph that fits. */
  ghost predicate Chunkable(segs: seq<Segment>, limit: int) {
    && BlankLinesPlain(segs)
    && forall i :: 0 <= i < |ParagraphGroups(segs)| ==> SafeParagraph(ParagraphGroups(segs)[i], limit)
  }

  lemma WholeAligned(group: seq<Segment>, limit: int)
    requires Utf16Len(Flatten(group)) <= limit && (Flatten(group) == [] ==> group == [])
    ensures Aligned(Parts(Flatten(group), limit), group)
  {
    if group != [] {
      assert group[..|group|] == group && group[|group|..] == [];
      assert Parts(Flatten(group), limit)[1..] == [];
      assert AlignedAt(Parts(Flatten(group), limit), group, |group|);
    }
  }

  /** Text whose paragraphs fit. */
  lemma FittingIsChunkable(segs: seq<Segment>, limit: int)
    requires BlankLinesPlain(segs) && WithinLimit(Paragraphs(Flatten(segs)), limit)
    ensures Chunkable(segs, limit)
  {
    GroupsAreParagraphs(segs);
    var groups := ParagraphGroups(segs);
    forall i | 0 <= i < |groups| ensures SafeParagraph(groups[i], limit) {
      assert Texts(groups)[i] == Flatten(groups[i]);
    }
  }

  /** Text none of whose segments can be cut. */
  lemma CuttableIsChunkable(segs: seq<Segment>, limit: int)
    requires Cuttable(segs, limit)
    ensures Chunkable(segs, limit)
  {
    forall i | 0 <= i < |segs| ensures segs[i] == NEWLINE || Unpaired(segs[i].text) {
      assert CuttableSegment(segs[i], limit);
      if segs[i] != NEWLINE {
        assert '\n' !in segs[i].text;
        NoNewlineNoPair(segs[i].text);
      }
    }
    GroupsAreParagraphs(segs);
    var groups := ParagraphGroups(segs);
    forall i, j | 0 <= i < |groups| && 0 <= j < |groups[i]| ensures CuttableSegment(groups[i][j], limit) {
      assert groups[i][j] in segs;
    }
  }

  // ---- The raw chunks cover any text ----

  function Separators(n: nat): string {
    if n == 0 then [] else Separators(n - 1) + SEPARATOR
  }

  /** The chunks in order, gaps[i] separators after chunk i. */
  function Woven(raws: seq<string>, gaps: seq<nat>): string
    requires |raws| == |gaps|
  {
    if raws == [] then []
    else
      var n := |raws| - 1;
      Woven(raws[..n], gaps[..n]) + raws[n] + Separators(gaps[n])
  }

  function Singles(text: string): seq<Segment> {
    seq(|text|, i requires 0 <= i < |text| => Segment(Plain, [text[i]]))
  }

  lemma {:induction false} FlattenSingles(text: string)
    ensures Flatten(Singles(text)) == text
  {
    if text != [] {
      var n := |text| - 1;
      assert Singles(text)[..n] == Singles(text[..n]);
      FlattenSingles(text[..n]);
      assert text == text[..n] + [text[n]];
    }
  }

  lemma {:induction false} SinglesAligned(parts: seq<string>, segs: seq<Segment>)
    requires segs == Singles(Glue(parts))
    ensures Aligned(parts, segs)
    decreases |parts|
  {
    if parts != [] {
      var k := |parts[0]|;
      assert segs[..k] == Singles(parts[0]) && segs[k..] == Singles(Glue(parts[1..]));
      FlattenSingles(parts[0]);
      SinglesAligned(parts[1..], segs[k..]);
      assert AlignedAt(parts, segs, k);
    }
  }

  lemma GroupOfSingles(group: seq<Segment>)
    requires forall j :: 0 <= j < |group| ==> group[j].kind.Plain? && |group[j].text| == 1
    ensures group == Singles(Flatten(group))
    decreases |group|
  {
    if group != [] {
      var n := |group| - 1;
      GroupOfSingles(group[..n]);
      assert group == group[..n] + [group[n]];
      assert group[n] == Segment(Plain, [group[n].text[0]]);
    }
  }

  lemma {:induction false} FlattenManyNewlines(n: nat)
    ensures Flatten(Newlines(n)) == Separators(n)
  {
    if n > 0 {
      FlattenManyNewlines(n - 1);
      FlattenConcat(Newlines(n - 1), [NEWLINE, NEWLINE]);
      FlattenNewlines();
    }
  }

  function Gaps(cover: seq<Piece>): (gaps: seq<nat>)
    ensures |gaps| == |cover|
  {
    if cover == [] then [] else Gaps(cover[..|cover| - 1]) + [cover[|cover| - 1].gap]
  }

  lemma {:induction false} FlattenLaid(cover: seq<Piece>, raws: seq<string>)
    requires Matches(cover, raws)
    ensures Flatten(Laid(cover)) == Woven(raws, Gaps(cover))
    decreases |cover|
  {
    if cover != [] {
      var n := |cover| - 1;
      FlattenLaid(cover[..n], raws[..n]);
      assert Gaps(cover)[..n] == Gaps(cover[..n]);
      FlattenConcat(Laid(cover[..n]), cover[n].group);
      FlattenConcat(Laid(cover[..n]) + cover[n].group, Newlines(cover[n].gap));
      FlattenManyNewlines(cover[n].gap);
    }
  }

  /** Main result: for every text and every limit of at least two, the text is exactly
      the raw chunks in order with zero or more separators after each of them. */
  lemma TextIsRawChunks(text: string, limit: int) returns (gaps: seq<nat>)
    requires limit >= 2
    ensures |gaps| == |RawChunks(Paragraphs(text), limit)|
    ensures Woven(RawChunks(Paragraphs(text), limit), gaps) == text
  {
    var segs := Singles(text);
    FlattenSingles(text);
    var groups := ParagraphGroups(segs);
    GroupsAreParagraphs(segs);
    forall i | 0 <= i < |groups| ensures Aligned(Parts(Flatten(groups[i]), limit), groups[i]) {
      GroupOfSingles(groups[i]);
      PartsCover(Flatten(groups[i]), limit);
      SinglesAligned(Parts(Flatten(groups[i]), limit), groups[i]);
    }
    RawChunksCover(groups, limit);
    var cover: seq<Piece> :| Matches(cover, RawChunks(Paragraphs(text), limit)) && Laid(cover) == segs;
    FlattenLaid(cover, RawChunks(Paragraphs(text), limit));
    gaps := Gaps(cover);
  }

  /** Main result: no boundary of a raw chunk falls inside a segment, when every paragraph
      fits the limit or holds only segments that cannot be cut. */
  lemma RawChunksAligned(segs: seq<Segment>, limit: int)
    requires Chunkable(segs, limit) && limit >= 2
    ensures Covers(RawChunks(Paragraphs(Flatten(segs)), limit), segs)
  {
    var groups := ParagraphGroups(segs);
    GroupsAreParagraphs(segs);
    forall i | 0 <= i < |groups| ensures Aligned(Parts(Flatten(groups[i]), limit), groups[i]) {
      assert SafeParagraph(groups[i], limit);
      if Utf16Len(Flatten(groups[i])) <= limit {
        NotEmptyText(groups, i, segs);
        WholeAligned(groups[i], limit);
      } else {
        PartsAligned(groups[i], limit);
      }
    }
    RawChunksCover(groups, limit);
  }

  lemma NotEmptyText(groups: seq<seq<Segment>>, i: nat, segs: seq<Segment>)
    requires BlankLinesPlain(segs) && DrawnFrom(groups, segs) && i < |groups|
    ensures Flatten(groups[i]) == [] ==> groups[i] == []
  {
    if groups[i] != [] {
      FlattenFront(groups[i]);
      assert groups[i][0] in segs;
    }
  }

  // ---- From text to sanitised chunks ----

  function TokensOf(segs: seq<Segment>, tok: Segment -> seq<Token>): seq<Token> {
    if segs == [] then [] else TokensOf(segs[..|segs| - 1], tok) + tok(segs[|segs| - 1])
  }

  ghost predicate SameMeaning(a: seq<Token>, b: seq<Token>) {
    forall st: Stack :: Meaning(a, st) == Meaning(b, st) && Final(a, st) == Final(b, st)
  }

  /** What is asked of the tokenizer, for the text at hand only: a newline is text, and every
      run of segments means what its segments mean one by one. */
  ghost predicate LexesRuns(lex: string -> seq<Token>, tok: Segment -> seq<Token>, segs: seq<Segment>) {
    && tok(NEWLINE) == [TextToken("\n")]
    && forall i, j :: 0 <= i <= j <= |segs| ==>
         SameMeaning(lex(Flatten(segs[i..j])), TokensOf(segs[i..j], tok))
  }

  function WithoutNewlines(seen: seq<(char, Stack)>): seq<(char, Stack)> {
    if seen == [] then []
    else
      var rest := WithoutNewlines(seen[..|seen| - 1]);
      if seen[|seen| - 1].0 == '\n' then rest else rest + [seen[|seen| - 1]]
  }

  lemma {:induction false} WithoutNewlinesConcat(a: seq<(char, Stack)>, b: seq<(char, Stack)>)
    ensures WithoutNewlines(a + b) == WithoutNewlines(a) + WithoutNewlines(b)
    decreases |b|
  {
    if b == [] {
      assert a + b == a;
    } else {
      assert (a + b)[..|a + b| - 1] == a + b[..|b| - 1];
      WithoutNewlinesConcat(a, b[..|b| - 1]);
    }
  }

  /** The two filters commute. */
  lemma {:induction false} InkWithoutNewlines(seen: seq<(char, Stack)>)
    ensures WithoutNewlines(Ink(seen)) == Ink(WithoutNewlines(seen))
  {
    if seen != [] {
      var n := |seen| - 1;
      InkWithoutNewlines(seen[..n]);
      WithoutNewlinesConcat(Ink(seen[..n]), [seen[n]]);
      InkConcat(WithoutNewlines(seen[..n]), [seen[n]]);
      assert [seen[n]][..0] == [];
    }
  }

  lemma {:induction false} TokensOfConcat(a: seq<Segment>, b: seq<Segment>, tok: Segment -> seq<Token>)
    ensures TokensOf(a + b, tok) == TokensOf(a, tok) + TokensOf(b, tok)
    decreases |b|
  {
    if b == [] {
      assert a + b == a;
    } else {
      assert (a + b)[..|a + b| - 1] == a + b[..|b| - 1];
      TokensOfConcat(a, b[..|b| - 1], tok);
    }
  }

  lemma PairTokens(tok: Segment -> seq<Token>)
    ensures TokensOf([NEWLINE, NEWLINE], tok) == tok(NEWLINE) + tok(NEWLINE)
  {
    assert [NEWLINE, NEWLINE][..1] == [NEWLINE];
    assert [NEWLINE][..0] == [];
    assert TokensOf([NEWLINE], tok) == tok(NEWLINE);
  }

  /** n dropped blank-line separators, inside the tags of st. */
  function Breaks(n: nat, st: Stack): seq<(char, Stack)> {
    if n == 0 then [] else Breaks(n - 1, st) + [('\n', st), ('\n', st)]
  }

  /** The tokens show n dropped separators, wherever they stand. */
  ghost predicate MeansBreaks(toks: seq<Token>, n: nat) {
    forall st :: Meaning(toks, st) == Breaks(n, st) && Final(toks, st) == st
  }

  lemma PairMeans(pair: seq<Token>, st: Stack)
    requires pair == [TextToken("\n")] + [TextToken("\n")]
    ensures Meaning(pair, st) == [('\n', st), ('\n', st)] && Final(pair, st) == st
  {
    var one := [TextToken("\n")];
    assert one[1..] == [];
    assert Meaning(one, st) == [('\n', st)];
    MeaningConcat(one, one, st);
    assert [('\n', st)] + [('\n', st)] == [('\n', st), ('\n', st)];
  }

  lemma MoreBreaks(toks: seq<Token>, n: nat, pair: seq<Token>)
    requires MeansBreaks(toks, n) && pair == [TextToken("\n")] + [TextToken("\n")]
    ensures MeansBreaks(toks + pair, n + 1)
  {
    forall st ensures Meaning(toks + pair, st) == Breaks(n + 1, st) && Final(toks + pair, st) == st {
      PairMeans(pair, st);
      MeaningConcat(toks, pair, st);
    }
  }

  lemma {:induction false} BreaksMean(n: nat, tok: Segment -> seq<Token>)
    requires tok(NEWLINE) == [TextToken("\n")]
    ensures MeansBreaks(TokensOf(Newlines(n), tok), n)
  {
    hide MeansBreaks;
    if n == 0 {
      NoBreaks();
    } else {
      BreaksMean(n - 1, tok);
      TokensOfConcat(Newlines(n - 1), [NEWLINE, NEWLINE], tok);
      PairTokens(tok);
      hide TokensOf;
      MoreBreaks(TokensOf(Newlines(n - 1), tok), n - 1, tok(NEWLINE) + tok(NEWLINE));
    }
  }

  lemma NoBreaks()
    ensures MeansBreaks([], 0)
  {
  }

  function LexAll(lex: string -> seq<Token>, raws: seq<string>): seq<seq<Token>> {
    if raws == [] then [] else LexAll(lex, raws[..|raws| - 1]) + [lex(raws[|raws| - 1])]
  }

  /** The shares of all the raw chunks, with the dropped separators after each of them. */
  function Whole(toks: seq<seq<Token>>, gaps: seq<nat>): seq<(char, Stack)>
    requires |toks| == |gaps|
  {
    if toks == [] then []
    else
      var n := |toks| - 1;
      Whole(toks[..n], gaps[..n]) + Share(toks, n) + Breaks(gaps[n], Final(Concat(toks), []))
  }

  ghost predicate AgreeWithoutNewlines(a: seq<Token>, b: seq<Token>) {
    && WithoutNewlines(Meaning(a, [])) == WithoutNewlines(Meaning(b, []))
    && Final(a, []) == Final(b, [])
  }

  /** The group of the last piece is a run of the segments. */
  lemma LastGroupIsRun(cover: seq<Piece>, segs: seq<Segment>) returns (at: nat)
    requires cover != [] && Laid(cover) <= segs
    ensures Laid(cover[..|cover| - 1]) <= segs && at + |cover[|cover| - 1].group| <= |segs|
    ensures cover[|cover| - 1].group == segs[at..at + |cover[|cover| - 1].group|]
  {
    var front, last := Laid(cover[..|cover| - 1]), cover[|cover| - 1];
    var gap := Newlines(last.gap);
    assert Laid(cover) == front + last.group + gap;
    hide Laid;
    hide Newlines;
    at := |front|;
    RunOf(front, last.group, gap, segs);
  }

  lemma RunOf(front: seq<Segment>, group: seq<Segment>, gap: seq<Segment>, segs: seq<Segment>)
    requires front + group + gap <= segs
    ensures front <= segs && |front| + |group| <= |segs| && group == segs[|front|..|front| + |group|]
  {
  }

  /** The tokens mean what the raw chunks mean, lexed one by one, with so many blank-line
      separators after each. */
  ghost predicate MeansWhole(done: seq<Token>, toks: seq<seq<Token>>, gaps: seq<nat>) {
    && |toks| == |gaps| && Meaning(done, []) == Whole(toks, gaps)
    && Final(done, []) == Final(Concat(toks), [])
  }

  /** One more raw chunk and its separators. */
  lemma WholeStep(toks: seq<seq<Token>>, gaps: seq<nat>, done: seq<Token>, chunk: seq<Token>, gap: nat,
                  group: seq<Token>, sep: seq<Token>)
    requires MeansWhole(done, toks, gaps) && SameMeaning(chunk, group) && MeansBreaks(sep, gap)
    ensures MeansWhole(done + group + sep, toks + [chunk], gaps + [gap])
  {
    var all := toks + [chunk];
    assert all[..|toks|] == toks && (gaps + [gap])[..|toks|] == gaps;
    ConcatLast(toks, chunk);
    MeaningConcat(Concat(toks), chunk, []);
    MeaningConcat(done, group, []);
    MeaningConcat(done + group, sep, []);
  }

  lemma GroupMeans(lex: string -> seq<Token>, tok: Segment -> seq<Token>, segs: seq<Segment>, group: seq<Segment>,
                   at: nat)
    requires LexesRuns(lex, tok, segs) && at + |group| <= |segs| && group == segs[at..at + |group|]
    ensures SameMeaning(lex(Flatten(group)), TokensOf(group, tok)) && tok(NEWLINE) == [TextToken("\n")]
  {
  }

  lemma {:induction false} ChunksAgree(lex: string -> seq<Token>, tok: Segment -> seq<Token>,
                                       cover: seq<Piece>, raws: seq<string>, segs: seq<Segment>)
    requires LexesRuns(lex, tok, segs) && Matches(cover, raws) && Laid(cover) <= segs
    ensures MeansWhole(TokensOf(Laid(cover), tok), LexAll(lex, raws), Gaps(cover))
    decreases |cover|
  {
    hide LexesRuns;
    hide Flatten;
    hide MeansWhole;
    hide Newlines;
    if cover == [] {
      NothingMeans();
    } else {
      var n := |cover| - 1;
      var at := LastGroupIsRun(cover, segs);
      ChunksAgree(lex, tok, cover[..n], raws[..n], segs);
      PieceAgrees(lex, tok, Laid(cover[..n]), cover[n], LexAll(lex, raws[..n]), Gaps(cover[..n]), segs, at);
    }
  }

  lemma NothingMeans()
    ensures MeansWhole([], [], [])
  {
  }

  lemma PieceAgrees(lex: string -> seq<Token>, tok: Segment -> seq<Token>, before: seq<Segment>, piece: Piece,
                    toks: seq<seq<Token>>, gaps: seq<nat>, segs: seq<Segment>, at: nat)
    requires LexesRuns(lex, tok, segs) && at + |piece.group| <= |segs| && piece.group == segs[at..at + |piece.group|]
    requires MeansWhole(TokensOf(before, tok), toks, gaps)
    ensures MeansWhole(TokensOf(before + piece.group + Newlines(piece.gap), tok), toks + [lex(Flatten(piece.group))],
                       gaps + [piece.gap])
  {
    var group, sep := piece.group, Newlines(piece.gap);
    GroupMeans(lex, tok, segs, group, at);
    BreaksMean(piece.gap, tok);
    hide MeansWhole;
    hide MeansBreaks;
    hide SameMeaning;
    hide LexesRuns;
    TokensOfConcat(before, group, tok);
    TokensOfConcat(before + group, sep, tok);
    WholeStep(toks, gaps, TokensOf(before, tok), lex(Flatten(group)), piece.gap, TokensOf(group, tok),
              TokensOf(sep, tok));
  }

  lemma {:induction false} BreaksVanish(n: nat, st: Stack)
    ensures WithoutNewlines(Breaks(n, st)) == []
  {
    if n > 0 {
      BreaksVanish(n - 1, st);
      var one := [('\n', st)];
      WithoutNewlinesConcat(one, one);
      assert one + one == [('\n', st), ('\n', st)] && one[..0] == [];
      WithoutNewlinesConcat(Breaks(n - 1, st), [('\n', st), ('\n', st)]);
    }
  }

  lemma {:induction false} WholeWithoutNewlines(toks: seq<seq<Token>>, gaps: seq<nat>)
    requires |toks| == |gaps|
    ensures WithoutNewlines(Whole(toks, gaps)) == WithoutNewlines(Meaning(Concat(toks), []))
  {
    if toks != [] {
      var n := |toks| - 1;
      var before, st := Concat(toks[..n]), Final(Concat(toks), []);
      WholeWithoutNewlines(toks[..n], gaps[..n]);
      MeaningConcat(before, toks[n], []);
      BreaksVanish(gaps[n], st);
      WithoutNewlinesConcat(Meaning(before, []), Share(toks, n));
      WithoutNewlinesConcat(Whole(toks[..n], gaps[..n]), Share(toks, n));
      WithoutNewlinesConcat(Whole(toks[..n], gaps[..n]) + Share(toks, n), Breaks(gaps[n], st));
    }
  }

  /** All that lexing the raw chunks one by one loses is the blank-line separators that the text
      has between them. */
  ghost predicate LosesBreaks(lex: string -> seq<Token>, text: string, raws: seq<string>) {
    exists gaps: seq<nat> ::
      |gaps| == |raws| && Woven(raws, gaps) == text && MeansWhole(lex(text), LexAll(lex, raws), gaps)
  }

  /** Lexing chunk by chunk means what lexing the whole means, up to dropped separators. */
  lemma RawChunksKeepMeaning(lex: string -> seq<Token>, tok: Segment -> seq<Token>, segs: seq<Segment>, limit: int)
    requires LexesRuns(lex, tok, segs) && Chunkable(segs, limit) && limit >= 2
    ensures var raws := RawChunks(Paragraphs(Flatten(segs)), limit);
            && LosesBreaks(lex, Flatten(segs), raws)
            && AgreeWithoutNewlines(Concat(LexAll(lex, raws)), lex(Flatten(segs)))
  {
    var raws := RawChunks(Paragraphs(Flatten(segs)), limit);
    RawChunksAligned(segs, limit);
    var cover: seq<Piece> :| Matches(cover, raws) && Laid(cover) == segs;
    ChunksAgree(lex, tok, cover, raws, segs);
    assert segs[0..|segs|] == segs;
    assert SameMeaning(lex(Flatten(segs)), TokensOf(segs, tok));
    WholeWithoutNewlines(LexAll(lex, raws), Gaps(cover));
    FlattenLaid(cover, raws);
    assert MeansWhole(lex(Flatten(segs)), LexAll(lex, raws), Gaps(cover));
  }

  /** The chunks of a text. */
  function ChunksOf(text: string, limit: int, lex: string -> seq<Token>): seq<seq<Atom>> {
    if Utf16Len(text) <= limit then [Sanitized(lex(text), [])]
    else SentChunks(LexAll(lex, RawChunks(Paragraphs(text), limit)))
  }

  lemma OneChunk(c: seq<Atom>)
    ensures Concat([c]) == c
  {
    assert [c][..0] == [];
  }

  /** The text is sent whole, or its paragraphs are not cut inside a segment. */
  ghost predicate Sendable(segs: seq<Segment>, limit: int) {
    Utf16Len(Flatten(segs)) <= limit || (Chunkable(segs, limit) && limit >= 2)
  }

  /** `seen` is what the whole text means, character by character with the tags around each,
      but for two losses: blank-line separators between raw chunks, and raw chunks that show
      nothing but white space outside all tags. Every other newline is kept. */
  ghost predicate ShowsText(seen: seq<(char, Stack)>, text: string, limit: int, lex: string -> seq<Token>) {
    if Utf16Len(text) <= limit then seen == Meaning(lex(text), [])
    else
      var raws := RawChunks(Paragraphs(text), limit);
      var toks := LexAll(lex, raws);
      && LosesBreaks(lex, text, raws) && seen == SentShares(toks)
      && forall k :: 0 <= k < |toks| && IsDropped(toks, k) ==> OnlyBlank(Share(toks, k))
  }

  /** Every character with the tags around it, except newlines and white space outside all
      tags: a reading of ShowsText that needs no chunks. */
  function Visible(seen: seq<(char, Stack)>): seq<(char, Stack)> {
    WithoutNewlines(Ink(seen))
  }

  /** Main result: if the text is sent whole, or each of its paragraphs fits the limit or
      cannot be cut, and the tokenizer lexes its runs by segments, then the chunks one after
      the other show what the whole text means. */
  lemma ChunksKeepMeaning(lex: string -> seq<Token>, tok: Segment -> seq<Token>, segs: seq<Segment>, text: string,
                          limit: int)
    requires text == Flatten(segs) && LexesRuns(lex, tok, segs) && Sendable(segs, limit)
    ensures var shown := Read(Concat(ChunksOf(text, limit, lex)), []);
      && shown.Reading? && ShowsText(shown.seen, text, limit, lex)
      && Visible(shown.seen) == Visible(Meaning(lex(text), []))
  {
    SanitizedReads(lex(text), []);
    OneChunk(Sanitized(lex(text), []));
    if Utf16Len(text) > limit {
      var raws := RawChunks(Paragraphs(text), limit);
      SentChunksShow(LexAll(lex, raws));
      SentChunksShowAll(LexAll(lex, raws));
      RawChunksKeepMeaning(lex, tok, segs, limit);
      InkWithoutNewlines(Meaning(Concat(LexAll(lex, raws)), []));
      InkWithoutNewlines(Meaning(lex(text), []));
    }
  }

  /** SplitHTMLChunks, for any tokenizer. Every chunk is well nested over allowed tags
      and there is at least one. */
  method SplitHTMLChunks(text: string, limit: int, lex: string -> seq<Token>) returns (chunks: seq<seq<Atom>>)
    ensures chunks == ChunksOf(text, limit, lex) && |chunks| >= 1
    ensures forall c :: c in chunks ==> WellNested(c)
    ensures Utf16Len(text) <= limit ==> chunks == [Sanitized(lex(text), [])]
    ensures Read(Concat(chunks), []).Reading?
    ensures forall segs, tok ::
      text == Flatten(segs) && LexesRuns(lex, tok, segs) && Sendable(segs, limit) ==>
        ShowsText(Read(Concat(chunks), []).seen, text, limit, lex)
        && Visible(Read(Concat(chunks), []).seen) == Visible(Meaning(lex(text), []))
  {
    if Utf16Len(text) <= limit {
      var html, _ := BalanceAndSanitize(lex(text), []);
      SanitizedReads(lex(text), []);
      SanitizedOnlyCleanTags(lex(text), []);
      OneChunk(html);
      chunks := [html];
    } else {
      var raws := PackParagraphs(Paragraphs(text), limit);
      chunks := SanitizeChunks(LexAll(lex, raws));
      SentChunksShow(LexAll(lex, raws));
    }
    forall segs, tok: Segment -> seq<Token>
      | text == Flatten(segs) && LexesRuns(lex, tok, segs) && Sendable(segs, limit)
      ensures ShowsText(Read(Concat(chunks), []).seen, text, limit, lex)
      ensures Visible(Read(Concat(chunks), []).seen) == Visible(Meaning(lex(text), []))
    {
      ChunksKeepMeaning(lex, tok, segs, text, limit);
    }
  }
}
