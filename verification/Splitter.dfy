/** splitOversizedParagraph (formatters.go). A paragraph is a sequence of runes and
    its length is counted in UTF-16 code units. */
module Splitter {
  import opened Text

  // ---- The scans behind one cut ----

  /** Length of the longest prefix of at most `limit` units. */
  function FitCut(runes: string, limit: int): (cut: nat)
    ensures cut <= |runes|
  {
    if runes == [] || Units(runes[0]) > limit then 0
    else 1 + FitCut(runes[1..], limit - Units(runes[0]))
  }

  /** Position of the '<' that is still open at `cut`, or -1. */
  function OpenTagStart(runes: string, cut: nat): (i: int)
    requires cut <= |runes|
    ensures -1 <= i < cut
  {
    if cut == 0 || runes[cut - 1] == '>' then -1
    else if runes[cut - 1] == '<' then cut - 1
    else OpenTagStart(runes, cut - 1)
  }

  predicate IsBlank(c: char) {
    c == ' ' || c == '\n'
  }

  /** Position of the '&' of an entity still open at `cut`, looking `window` runes back. */
  function OpenEntityStart(runes: string, cut: nat, window: nat): (i: int)
    requires cut <= |runes|
    ensures -1 <= i < cut
  {
    if cut == 0 || window == 0 || runes[cut - 1] == ';' || IsBlank(runes[cut - 1]) then -1
    else if runes[cut - 1] == '&' then cut - 1
    else OpenEntityStart(runes, cut - 1, window - 1)
  }

  /** Position of the last blank in runes[low..cut], or -1. */
  function LastBlank(runes: string, low: nat, cut: nat): (i: int)
    requires cut <= |runes|
    ensures -1 <= i < cut
    ensures i >= 0 ==> i >= low && IsBlank(runes[i])
    ensures forall j :: low <= j < cut && j > i ==> !IsBlank(runes[j])
  {
    if cut <= low then -1
    else if IsBlank(runes[cut - 1]) then cut - 1
    else LastBlank(runes, low, cut - 1)
  }

  const ENTITY_WINDOW := 11

  /** Where one part ends. */
  function Cut(runes: string, limit: int): (cut: nat)
    requires Utf16Len(runes) > limit && runes != []
    ensures 1 <= cut <= |runes|
    ensures cut <= FitCut(runes, limit) || cut == 1
  {
    var fit := if FitCut(runes, limit) == 0 then 1 else FitCut(runes, limit);
    var tag := OpenTagStart(runes, fit);
    var entity := if tag >= 0 then -1 else OpenEntityStart(runes, fit, ENTITY_WINDOW);
    if tag > 0 then tag
    else if entity > 0 then entity
    else if tag < 0 && entity < 0 then
      var blank := LastBlank(runes, fit * 4 / 5, fit);
      if blank >= 0 then blank + 1 else fit
    else fit
  }

  function Parts(runes: string, limit: int): (parts: seq<string>)
    decreases |runes|
  {
    if Utf16Len(runes) <= limit || runes == [] then (if runes == [] then [] else [runes])
    else [runes[..Cut(runes, limit)]] + Parts(runes[Cut(runes, limit)..], limit)
  }

  /** splitOversizedParagraph: for every paragraph and every limit. */
  method SplitOversizedParagraph(p: string, limit: int) returns (parts: seq<string>)
    ensures parts == if p == [] && limit >= 0 then [[]] else Parts(p, limit)
  {
    if Utf16Len(p) <= limit {
      return [p];
    }
    var runes := p;
    parts := [];
    while |runes| > 0 && Utf16Len(runes) > limit
      invariant parts + Parts(runes, limit) == Parts(p, limit)
      decreases |runes|
    {
      var cut := FindCut(runes, limit);
      parts := parts + [runes[..cut]];
      runes := runes[cut..];
    }
    if |runes| > 0 {
      parts := parts + [runes];
    }
  }

  method FindCut(runes: string, limit: int) returns (cut: nat)
    requires Utf16Len(runes) > limit && runes != []
    ensures cut == Cut(runes, limit) && IsCut(runes, limit, cut)
  {
    CutFollowsRule(runes, limit);
    cut := ScanFit(runes, limit);
    if cut == 0 {
      cut := 1;
    }
    var tagStart := ScanTag(runes, cut);
    var entityStart := -1;
    if tagStart < 0 {
      entityStart := ScanEntity(runes, cut);
    }
    if tagStart > 0 {
      cut := tagStart;
    } else if entityStart > 0 {
      cut := entityStart;
    } else if tagStart < 0 && entityStart < 0 {
      var blank := ScanBlank(runes, cut * 4 / 5, cut);
      if blank >= 0 {
        cut := blank + 1;
      }
    }
    if cut <= 0 {
      assert false; // the closing-'>' fallback of the source cannot run
    }
  }

  method ScanFit(runes: string, limit: int) returns (cut: nat)
    ensures cut == FitCut(runes, limit)
  {
    cut := 0;
    var units := 0;
    assert runes[0..] == runes;
    while cut < |runes| && units + Units(runes[cut]) <= limit
      invariant 0 <= cut <= |runes|
      invariant cut + FitCut(runes[cut..], limit - units) == FitCut(runes, limit)
    {
      assert runes[cut..][1..] == runes[cut + 1..];
      units := units + Units(runes[cut]);
      cut := cut + 1;
    }
  }

  method ScanTag(runes: string, cut: nat) returns (tagStart: int)
    requires cut <= |runes|
    ensures tagStart == OpenTagStart(runes, cut)
  {
    var i := cut - 1;
    while i >= 0
      invariant -1 <= i < cut
      invariant OpenTagStart(runes, cut) == OpenTagStart(runes, i + 1)
    {
      if runes[i] == '>' {
        return -1;
      }
      if runes[i] == '<' {
        return i;
      }
      i := i - 1;
    }
    return -1;
  }

  method ScanEntity(runes: string, cut: nat) returns (entityStart: int)
    requires cut <= |runes|
    ensures entityStart == OpenEntityStart(runes, cut, ENTITY_WINDOW)
  {
    var i := cut - 1;
    while i >= 0 && cut - i < 12
      invariant -1 <= i < cut && cut - i <= 12
      invariant OpenEntityStart(runes, cut, ENTITY_WINDOW) == OpenEntityStart(runes, i + 1, 12 - (cut - i))
    {
      if runes[i] == ';' || IsBlank(runes[i]) {
        return -1;
      }
      if runes[i] == '&' {
        return i;
      }
      i := i - 1;
    }
    return -1;
  }

  method ScanBlank(runes: string, minCut: nat, cut: nat) returns (blank: int)
    requires cut <= |runes|
    ensures blank == LastBlank(runes, minCut, cut)
  {
    var i := cut - 1;
    while i >= minCut
      invariant -1 <= i < cut || i == cut - 1
      invariant LastBlank(runes, minCut, cut) == LastBlank(runes, minCut, if i < 0 then 0 else i + 1)
    {
      if IsBlank(runes[i]) {
        return i;
      }
      i := i - 1;
    }
    return -1;
  }

  // ---- Every input, every limit: nothing lost, nothing too long ----

  function Glue(parts: seq<string>): string {
    if parts == [] then [] else parts[0] + Glue(parts[1..])
  }

  lemma {:induction false} FitCutFits(runes: string, limit: int)
    ensures limit >= 0 ==> Utf16Len(runes[..FitCut(runes, limit)]) <= limit
    ensures FitCut(runes, limit) < |runes| ==> Utf16Len(runes[..FitCut(runes, limit) + 1]) > limit
    ensures Utf16Len(runes) > limit ==> FitCut(runes, limit) < |runes| || limit < 0
    decreases |runes|
  {
    if runes == [] || Units(runes[0]) > limit {
      if runes != [] {
        assert runes[..1][1..] == [];
      }
    } else {
      var rest, k := runes[1..], FitCut(runes[1..], limit - Units(runes[0]));
      FitCutFits(rest, limit - Units(runes[0]));
      assert runes[..1 + k][1..] == rest[..k];
      if k < |rest| {
        assert runes[..2 + k][1..] == rest[..k + 1];
      }
    }
  }

  /** Every prefix within the limit is inside the longest fitting prefix. */
  lemma {:induction false} FitCutReaches(runes: string, k: nat, limit: int)
    requires k <= |runes| && Utf16Len(runes[..k]) <= limit
    ensures k <= FitCut(runes, limit)
    decreases k
  {
    if k > 0 {
      assert runes[..k][1..] == runes[1..][..k - 1];
      FitCutReaches(runes[1..], k - 1, limit - Units(runes[0]));
    }
  }

  lemma {:induction false} Utf16LenPrefix(s: string, k: nat)
    requires k <= |s|
    ensures Utf16Len(s[..k]) <= Utf16Len(s)
  {
    Utf16LenConcat(s[..k], s[k..]);
    assert s[..k] + s[k..] == s;
  }

  /** A part fits the limit, or is the single rune the code takes to make progress. */
  predicate FitsOrSingle(part: string, limit: int) {
    part != [] && (Utf16Len(part) <= limit || |part| == 1)
  }

  lemma CutFits(runes: string, limit: int)
    requires Utf16Len(runes) > limit && runes != []
    ensures FitsOrSingle(runes[..Cut(runes, limit)], limit)
  {
    var cut, fit := Cut(runes, limit), FitCut(runes, limit);
    if cut <= fit {
      FitCutFits(runes, limit);
      assert limit >= 0;
      assert runes[..fit][..cut] == runes[..cut];
      Utf16LenPrefix(runes[..fit], cut);
    }
  }

  lemma {:induction false} PartsGlue(runes: string, limit: int)
    ensures Glue(Parts(runes, limit)) == runes
    decreases |runes|
  {
    if runes == [] {
    } else if Utf16Len(runes) <= limit {
      GlueCons(runes, []);
    } else {
      var cut := Cut(runes, limit);
      PartsGlue(runes[cut..], limit);
      GlueCut(runes, limit, cut, runes[..cut], Parts(runes[cut..], limit));
    }
  }

  lemma GlueCut(runes: string, limit: int, cut: nat, head: string, rest: seq<string>)
    requires Utf16Len(runes) > limit && runes != [] && cut == Cut(runes, limit)
    requires head == runes[..cut] && rest == Parts(runes[cut..], limit) && Glue(rest) == runes[cut..]
    ensures Glue(Parts(runes, limit)) == runes
  {
    assert Parts(runes, limit) == [head] + rest;
    GlueCons(head, rest);
    assert head + runes[cut..] == runes;
  }

  lemma {:induction false} PartsFit(runes: string, limit: int)
    ensures forall part :: part in Parts(runes, limit) ==> FitsOrSingle(part, limit)
    decreases |runes|
  {
    if runes != [] && Utf16Len(runes) > limit {
      var cut := Cut(runes, limit);
      var head, rest := runes[..cut], Parts(runes[cut..], limit);
      PartsFit(runes[cut..], limit);
      CutFits(runes, limit);
      assert forall part :: part in [head] + rest ==> part == head || part in rest;
    }
  }

  /** Main result: for every limit the parts are non-empty, each within the limit or a
      single rune, and their concatenation is the paragraph. */
  lemma PartsCover(runes: string, limit: int)
    ensures Glue(Parts(runes, limit)) == runes
    ensures forall part :: part in Parts(runes, limit) ==> FitsOrSingle(part, limit)
    ensures limit >= 2 ==> forall part :: part in Parts(runes, limit) ==> Utf16Len(part) <= limit
  {
    PartsGlue(runes, limit);
    PartsFit(runes, limit);
    forall part | part in Parts(runes, limit) && limit >= 2 ensures Utf16Len(part) <= limit {
      assert FitsOrSingle(part, limit);
      Utf16LenBounds(part);
    }
  }

  lemma GlueCons(head: string, rest: seq<string>)
    ensures Glue([head] + rest) == head + Glue(rest)
  {
    assert ([head] + rest)[1..] == rest;
  }

  // ---- Where the cuts are ----

  /** The longest prefix within the limit, or one rune when none fits. */
  predicate Longest(runes: string, limit: int, fit: nat) {
    && 1 <= fit <= |runes| && (fit == 1 || Utf16Len(runes[..fit]) <= limit)
    && (fit == |runes| || Utf16Len(runes[..fit + 1]) > limit)
  }

  /** The '<' at i has no '>' and no other '<' between it and `at`. */
  predicate TagOpenAt(runes: string, at: nat, i: nat) {
    i < at <= |runes| && runes[i] == '<' && forall j :: i < j < at ==> runes[j] != '<' && runes[j] != '>'
  }

  /** The '&' at i is one of the last `back` runes, with no ';', blank or other '&' after it. */
  predicate EntityOpenAt(runes: string, at: nat, back: nat, i: nat) {
    && i < at <= |runes| && at - i <= back && runes[i] == '&'
    && forall j :: i < j < at ==> runes[j] != ';' && runes[j] != '&' && !IsBlank(runes[j])
  }

  /** The blank at i is in the last fifth of runes[..at], and none comes after it. */
  predicate LastBlankAt(runes: string, at: nat, i: nat) {
    && 4 * at < 5 * (i + 1) && i < at <= |runes| && IsBlank(runes[i])
    && forall j :: i < j < at ==> !IsBlank(runes[j])
  }

  ghost predicate NoTagOpen(runes: string, at: nat) {
    forall i: nat :: !TagOpenAt(runes, at, i)
  }

  ghost predicate NothingOpenAt(runes: string, at: nat) {
    NoTagOpen(runes, at) && forall i: nat :: !EntityOpenAt(runes, at, 11, i)
  }

  /** From the longest prefix: back to the tag that is open there, else to the entity, unless it
      starts the text; else to the last blank of the last fifth; else not at all. */
  ghost predicate CutFrom(runes: string, fit: nat, cut: nat) {
    && (forall i: nat :: TagOpenAt(runes, fit, i) ==> cut == if i > 0 then i else fit)
    && (NoTagOpen(runes, fit) ==> forall i: nat :: EntityOpenAt(runes, fit, 11, i) ==> cut == if i > 0 then i else fit)
    && (NothingOpenAt(runes, fit) ==> forall i: nat :: LastBlankAt(runes, fit, i) ==> cut == i + 1)
    && (NothingOpenAt(runes, fit) && (forall i: nat :: !LastBlankAt(runes, fit, i)) ==> cut == fit)
  }

  ghost predicate IsCut(runes: string, limit: int, cut: nat) {
    exists fit: nat :: Longest(runes, limit, fit) && CutFrom(runes, fit, cut)
  }

  lemma {:induction false} TagScanned(runes: string, at: nat)
    requires at <= |runes|
    ensures var t := OpenTagStart(runes, at);
      && (t >= 0 ==> TagOpenAt(runes, at, t)) && forall i: nat :: TagOpenAt(runes, at, i) ==> i == t
  {
    if at > 0 && runes[at - 1] != '>' && runes[at - 1] != '<' {
      TagScanned(runes, at - 1);
      assert forall i: nat :: TagOpenAt(runes, at, i) ==> TagOpenAt(runes, at - 1, i);
    }
  }

  lemma {:induction false} EntityScanned(runes: string, at: nat, back: nat)
    requires at <= |runes|
    ensures var e := OpenEntityStart(runes, at, back);
      && (e >= 0 ==> EntityOpenAt(runes, at, back, e)) && forall i: nat :: EntityOpenAt(runes, at, back, i) ==> i == e
    decreases at
  {
    if at > 0 && back > 0 && runes[at - 1] != ';' && !IsBlank(runes[at - 1]) && runes[at - 1] != '&' {
      EntityScanned(runes, at - 1, back - 1);
      assert forall i: nat :: EntityOpenAt(runes, at, back, i) ==> EntityOpenAt(runes, at - 1, back - 1, i);
    }
  }

  lemma BlankScanned(runes: string, at: nat)
    requires at <= |runes|
    ensures var b := LastBlank(runes, at * 4 / 5, at);
      && (b >= 0 ==> LastBlankAt(runes, at, b)) && forall i: nat :: LastBlankAt(runes, at, i) ==> i == b
  {
    var b := LastBlank(runes, at * 4 / 5, at);
    forall i: nat | LastBlankAt(runes, at, i) ensures i == b {
      assert i >= at * 4 / 5;
    }
  }

  lemma FitIsLongest(runes: string, limit: int)
    requires Utf16Len(runes) > limit && runes != []
    ensures Longest(runes, limit, if FitCut(runes, limit) == 0 then 1 else FitCut(runes, limit))
  {
    FitCutFits(runes, limit);
    if FitCut(runes, limit) == 0 && |runes| > 1 {
      assert runes[..2][..1] == runes[..1];
      Utf16LenPrefix(runes[..2], 1);
    }
  }

  /** Main result: each cut is where that rule puts it. */
  lemma CutFollowsRule(runes: string, limit: int)
    requires Utf16Len(runes) > limit && runes != []
    ensures IsCut(runes, limit, Cut(runes, limit))
  {
    var fit := if FitCut(runes, limit) == 0 then 1 else FitCut(runes, limit);
    FitIsLongest(runes, limit);
    TagScanned(runes, fit);
    EntityScanned(runes, fit, ENTITY_WINDOW);
    BlankScanned(runes, fit);
    assert CutFrom(runes, fit, Cut(runes, limit));
  }

  /** The parts end at such cuts, each made in what the parts before it leave. */
  lemma {:induction false} PartsEndAtCuts(runes: string, limit: int, k: nat)
    requires k + 1 < |Parts(runes, limit)|
    ensures var rest := Glue(Parts(runes, limit)[k..]);
      && Utf16Len(rest) > limit && Parts(runes, limit)[k] <= rest
      && IsCut(rest, limit, |Parts(runes, limit)[k]|)
    decreases k
  {
    var parts, cut := Parts(runes, limit), Cut(runes, limit);
    if k == 0 {
      PartsGlue(runes, limit);
      CutFollowsRule(runes, limit);
      assert parts[0..] == parts;
    } else {
      PartsEndAtCuts(runes[cut..], limit, k - 1);
      assert parts[k..] == Parts(runes[cut..], limit)[k - 1..];
    }
  }

  // ---- Tags and entities ----

  datatype Kind = Plain | Tag | Entity

  /** A lexical piece of Telegram HTML with its text. */
  datatype Segment = Segment(kind: Kind, text: string)

  function Flatten(segs: seq<Segment>): string {
    if segs == [] then [] else Flatten(segs[..|segs| - 1]) + segs[|segs| - 1].text
  }

  /** One character, `<...>` without inner angle brackets, or `&...;`. */
  ghost predicate WellFormed(s: Segment) {
    var t := s.text;
    match s.kind
    case Plain => |t| == 1 && t[0] != '<' && t[0] != '&'
    case Tag =>
      && |t| >= 2 && t[0] == '<' && t[|t| - 1] == '>'
      && forall j :: 0 < j < |t| - 1 ==> t[j] != '<' && t[j] != '>'
    case Entity =>
      && |t| >= 2 && t[0] == '&' && t[|t| - 1] == ';'
      && (forall j :: 0 < j < |t| - 1 ==> t[j] !in {'<', '>', '&', ';', ' ', '\n'})
  }

  /** The tags the cut rule cannot hit: no blank inside, and no '&' among the last
      eleven runes without a ';' after it. */
  ghost predicate SafeTag(t: string) {
    && (forall j :: 0 <= j < |t| ==> !IsBlank(t[j]))
    && (forall i :: 0 <= i < |t| && |t| - i <= ENTITY_WINDOW && t[i] == '&' ==>
          exists j :: i < j < |t| && t[j] == ';')
  }

  /** The segments the cut rule cannot hit: the look-back for an entity sees eleven runes. */
  ghost predicate Safe(s: Segment) {
    match s.kind
    case Plain => true
    case Tag => SafeTag(s.text)
    case Entity => |s.text| <= 12
  }

  ghost predicate Cuttable(segs: seq<Segment>, limit: int) {
    forall i :: 0 <= i < |segs| ==> CuttableSegment(segs[i], limit)
  }

  /** The parts group the segments: no boundary falls inside a tag or an entity. */
  ghost predicate Aligned(parts: seq<string>, segs: seq<Segment>)
    decreases |parts|, 1
  {
    if parts == [] then segs == [] else exists k: nat :: AlignedAt(parts, segs, k)
  }

  /** The first part is the first k segments. */
  ghost predicate AlignedAt(parts: seq<string>, segs: seq<Segment>, k: nat)
    requires parts != []
    decreases |parts|, 0
  {
    k <= |segs| && Flatten(segs[..k]) == parts[0] && Aligned(parts[1..], segs[k..])
  }

  lemma {:induction false} FlattenConcat(a: seq<Segment>, b: seq<Segment>)
    ensures Flatten(a + b) == Flatten(a) + Flatten(b)
    decreases |b|
  {
    if b == [] {
      assert a + b == a;
    } else {
      assert (a + b)[..|a + b| - 1] == a + b[..|b| - 1];
      FlattenConcat(a, b[..|b| - 1]);
    }
  }

  lemma {:induction false} FlattenOf(segs: seq<Segment>, a: seq<Segment>, b: seq<Segment>)
    requires segs == a + b
    ensures Flatten(segs) == Flatten(a) + Flatten(b)
  {
    FlattenConcat(a, b);
  }

  lemma {:induction false} FlattenSplit(segs: seq<Segment>, k: nat)
    requires k <= |segs|
    ensures Flatten(segs[..k]) + Flatten(segs[k..]) == Flatten(segs)
  {
    hide Flatten;
    var head, tail := segs[..k], segs[k..];
    FlattenOf(segs, head, tail);
  }

  ghost predicate Placed(text: string, at: nat, t: string) {
    at + |t| <= |text| && forall j :: 0 <= j < |t| ==> text[at + j] == t[j]
  }

  lemma FlattenPrefix(segs: seq<Segment>, k: nat)
    requires k <= |segs|
    ensures |Flatten(segs[..k])| <= |Flatten(segs)|
    ensures Flatten(segs)[..|Flatten(segs[..k])|] == Flatten(segs[..k])
  {
    FlattenSplit(segs, k);
  }

  /** Segment k occupies its place in the text. */
  lemma {:induction false} FlattenAt(segs: seq<Segment>, k: nat)
    requires k < |segs|
    ensures Flatten(segs[..k]) + segs[k].text == Flatten(segs[..k + 1])
    ensures Placed(Flatten(segs), |Flatten(segs[..k])|, segs[k].text)
  {
    assert segs[..k + 1][..k] == segs[..k];
    FlattenSplit(segs, k + 1);
  }

  /** The segment that holds position `pos`. */
  lemma {:induction false} Locate(segs: seq<Segment>, pos: nat) returns (k: nat)
    requires pos < |Flatten(segs)|
    ensures k < |segs| && |Flatten(segs[..k])| <= pos < |Flatten(segs[..k])| + |segs[k].text|
    decreases |segs|
  {
    var n := |segs| - 1;
    if |Flatten(segs[..n])| <= pos {
      k := n;
    } else {
      k := Locate(segs[..n], pos);
      assert segs[..n][..k] == segs[..k];
    }
  }

  lemma {:induction false} NoAngles(text: string, from: nat, cut: nat)
    requires from <= cut <= |text|
    requires forall j :: from <= j < cut ==> text[j] != '<' && text[j] != '>'
    ensures OpenTagStart(text, cut) == OpenTagStart(text, from)
  {
    if from < cut {
      NoAngles(text, from, cut - 1);
    }
  }

  ghost predicate CuttableSegment(s: Segment, limit: int) {
    WellFormed(s) && Safe(s) && Utf16Len(s.text) <= limit
  }

  /** If nothing is open before a segment, nothing is open after it. */
  lemma NothingOpenAfter(text: string, at: nat, s: Segment, limit: int, window: nat)
    requires CuttableSegment(s, limit) && Placed(text, at, s.text) && window <= ENTITY_WINDOW
    requires OpenTagStart(text, at) < 0
    requires OpenEntityStart(text, at, if window <= |s.text| then 0 else window - |s.text|) < 0
    ensures OpenTagStart(text, at + |s.text|) < 0
    ensures OpenEntityStart(text, at + |s.text|, window) < 0
  {
    var t := s.text;
    assert text[at + (|t| - 1)] == t[|t| - 1];
    match s.kind {
      case Plain =>
      case Entity =>
        assert forall j :: at <= j < at + |t| ==> text[j] == t[j - at];
        NoAngles(text, at, at + |t|);
      case Tag =>
        TagHidesEntities(t, text, at, window, |t|);
    }
  }

  lemma SegmentAt(segs: seq<Segment>, k: nat, s: Segment, text: string, at: nat)
    requires k < |segs| && s == segs[k] && text == Flatten(segs) && at == |Flatten(segs[..k])|
    ensures Placed(text, at, s.text) && |Flatten(segs[..k + 1])| == at + |s.text| <= |text|
  {
    FlattenAt(segs, k);
  }

  lemma PrefixGrows(segs: seq<Segment>, k: nat, text: string, at: nat, at': nat)
    requires k < |segs| && text == Flatten(segs) && at == |Flatten(segs[..k])| && at' == |Flatten(segs[..k + 1])|
    ensures at <= at' <= |text|
  {
    SegmentAt(segs, k, segs[k], text, at);
  }

  lemma NothingOpenNext(segs: seq<Segment>, k: nat, limit: int, window: nat, text: string, at: nat, at': nat)
    requires Cuttable(segs, limit) && window <= ENTITY_WINDOW && k < |segs|
    requires text == Flatten(segs) && at == |Flatten(segs[..k])| && at' == |Flatten(segs[..k + 1])|
      && at <= at' <= |text|
    requires OpenTagStart(text, at) < 0
    requires OpenEntityStart(text, at, if window <= at' - at then 0 else window - (at' - at)) < 0
    ensures OpenTagStart(text, at') < 0 && OpenEntityStart(text, at', window) < 0
  {
    SegmentAt(segs, k, segs[k], text, at);
    NothingOpenAfter(text, at, segs[k], limit, window);
  }

  /** At a segment boundary no tag and no entity is open. */
  lemma {:induction false} NothingOpen(segs: seq<Segment>, n: nat, limit: int, window: nat, text: string, at: nat)
    requires Cuttable(segs, limit) && window <= ENTITY_WINDOW && n <= |segs|
    requires text == Flatten(segs) && at == |Flatten(segs[..n])|
    ensures at <= |text| && OpenTagStart(text, at) < 0 && OpenEntityStart(text, at, window) < 0
    decreases n
  {
    if n == 0 {
      assert segs[..0] == [];
    } else {
      var before := |Flatten(segs[..n - 1])|;
      PrefixGrows(segs, n - 1, text, before, at);
      NothingOpen(segs, n - 1, limit, if window <= at - before then 0 else window - (at - before), text, before);
      NothingOpenNext(segs, n - 1, limit, window, text, before, at);
    }
  }

  /** Scanning back through the first `n` runes of a safe tag that starts at `at`. */
  lemma {:induction false} TagHidesEntities(t: string, text: string, at: nat, window: nat, n: nat)
    requires SafeTag(t) && at + |t| <= |text|
    requires forall j :: 0 <= j < |t| ==> text[at + j] == t[j]
    requires n <= |t| && (window == 0 || window + |t| - n <= ENTITY_WINDOW)
    requires forall j :: n <= j < |t| ==> t[j] != ';'
    requires OpenEntityStart(text, at, if window <= n then 0 else window - n) < 0
    ensures OpenEntityStart(text, at + n, window) < 0
    decreases n
  {
    if n > 0 && window > 0 {
      assert text[at + n - 1] == t[n - 1];
      if t[n - 1] != ';' {
        TagHidesEntities(t, text, at, window - 1, n - 1);
      }
    }
  }

  lemma {:induction false} NarrowUnits(s: string)
    requires forall j :: 0 <= j < |s| ==> s[j] as int <= 0xFFFF
    ensures Utf16Len(s) == |s|
  {
    if s != [] {
      assert s[0] as int <= 0xFFFF;
      NarrowUnits(s[1..]);
    }
  }

  lemma {:induction false} FindsAmpersand(text: string, at: nat, cut: nat, window: nat)
    requires at < cut <= |text| && cut - at <= window && text[at] == '&'
    requires forall j :: at < j < cut ==> text[j] !in {'&', ';', ' ', '\n'}
    ensures OpenEntityStart(text, cut, window) == at
    decreases cut
  {
    if at + 1 < cut {
      FindsAmpersand(text, at, cut - 1, window - 1);
    }
  }

  lemma AfterBlank(segs: seq<Segment>, limit: int, pos: nat) returns (k: nat)
    requires Cuttable(segs, limit) && pos < |Flatten(segs)| && IsBlank(Flatten(segs)[pos])
    ensures k <= |segs| && Flatten(segs[..k]) == Flatten(segs)[..pos + 1]
  {
    k := Locate(segs, pos);
    FlattenAt(segs, k);
    var at := |Flatten(segs[..k])|;
    assert Flatten(segs)[pos] == segs[k].text[pos - at];
    assert CuttableSegment(segs[k], limit);
    k := k + 1;
    FlattenPrefix(segs, k);
  }

  lemma FirstSegmentFits(segs: seq<Segment>, limit: int)
    requires Cuttable(segs, limit) && segs != []
    ensures 1 <= |segs[0].text| <= FitCut(Flatten(segs), limit)
  {
    var text, t := Flatten(segs), segs[0].text;
    assert t == text[..|t|] && |t| <= |text| by {
      FlattenAt(segs, 0);
      FlattenPrefix(segs, 1);
      assert segs[..0] == [];
    }
    assert CuttableSegment(segs[0], limit);
    FitCutReaches(text, |t|, limit);
  }

  /** A cut inside a segment finds the segment's own opening. */
  lemma FindsOpening(text: string, at: nat, s: Segment, limit: int, cut: nat)
    requires CuttableSegment(s, limit) && Placed(text, at, s.text) && at < cut < at + |s.text|
    requires OpenTagStart(text, at) < 0
    ensures s.kind.Tag? ==> OpenTagStart(text, cut) == at
    ensures s.kind.Entity? ==> OpenTagStart(text, cut) < 0 && OpenEntityStart(text, cut, ENTITY_WINDOW) == at
    ensures !s.kind.Plain?
  {
    assert forall j :: at <= j < cut ==> text[j] == s.text[j - at];
    match s.kind {
      case Plain =>
      case Tag => NoAngles(text, at + 1, cut);
      case Entity =>
        NoAngles(text, at, cut);
        FindsAmpersand(text, at, cut, ENTITY_WINDOW);
    }
  }

  /** A fitting prefix that ends inside segment k is cut back to the segment's start. */
  lemma CutBack(segs: seq<Segment>, limit: int, k: nat)
    requires Cuttable(segs, limit) && k < |segs|
    requires Utf16Len(Flatten(segs)) > limit
    requires |Flatten(segs[..k])| < FitCut(Flatten(segs), limit) < |Flatten(segs[..k])| + |segs[k].text|
    ensures Cut(Flatten(segs), limit) == |Flatten(segs[..k])|
  {
    var text, at := Flatten(segs), |Flatten(segs[..k])|;
    FlattenAt(segs, k);
    FirstSegmentFits(segs, limit);
    if k > 0 {
      FlattenAt(segs[..k], 0);
      assert segs[..k][0] == segs[0];
      assert segs[..k][..0] == [];
      assert at > 0;
    }
    NothingOpen(segs, k, limit, 0, Flatten(segs), |Flatten(segs[..k])|);
    assert Placed(text, at, segs[k].text);
    FindsOpening(text, at, segs[k], limit, FitCut(text, limit));
  }

  /** One cut of cuttable text falls between two segments. */
  lemma CutIsBoundary(segs: seq<Segment>, limit: int) returns (k: nat)
    requires Cuttable(segs, limit) && Flatten(segs) != []
    requires Utf16Len(Flatten(segs)) > limit
    ensures k <= |segs| && Flatten(segs[..k]) == Flatten(segs)[..Cut(Flatten(segs), limit)]
  {
    var text := Flatten(segs);
    var fit := FitCut(text, limit);
    FirstSegmentFits(segs, limit);
    FitCutFits(text, limit);
    Utf16LenBounds(segs[0].text);
    k := Locate(segs, fit);
    FlattenPrefix(segs, k);
    if fit == |Flatten(segs[..k])| {
      NothingOpen(segs, k, limit, ENTITY_WINDOW, Flatten(segs), |Flatten(segs[..k])|);
      var blank := LastBlank(text, fit * 4 / 5, fit);
      if blank >= 0 {
        k := AfterBlank(segs, limit, blank);
      }
    } else {
      CutBack(segs, limit, k);
    }
  }

  /** Main result: in well-formed text whose tags are safe and fit the limit, no part
      boundary falls inside a tag or an entity. */
  lemma {:induction false} PartsAligned(segs: seq<Segment>, limit: int)
    requires Cuttable(segs, limit)
    ensures Aligned(Parts(Flatten(segs), limit), segs)
    decreases |Flatten(segs)|
  {
    var text := Flatten(segs);
    if Utf16Len(text) <= limit || text == [] {
      if segs != [] {
        assert CuttableSegment(segs[|segs| - 1], limit);
        assert segs[..|segs|] == segs && segs[|segs|..] == [];
        assert Parts(text, limit)[1..] == [];
        assert AlignedAt(Parts(text, limit), segs, |segs|);
      }
    } else {
      var k := CutIsBoundary(segs, limit);
      var cut := Cut(text, limit);
      FlattenSplit(segs, k);
      assert text[cut..] == Flatten(segs[k..]);
      PartsAligned(segs[k..], limit);
      assert Parts(text, limit)[1..] == Parts(text[cut..], limit);
      assert AlignedAt(Parts(text, limit), segs, k);
    }
  }

  // ---- The conditions on tags and entities are exact ----

  /** In no context of safe text, at no limit that the segment fits, does
      a part boundary fall inside the segment. */
  ghost predicate NeverCut(s: Segment) {
    forall pre: seq<Segment>, post: seq<Segment>, limit: int :: UncutBetween(pre, s, post, limit)
  }

  ghost predicate UncutBetween(pre: seq<Segment>, s: Segment, post: seq<Segment>, limit: int) {
    Cuttable(pre, limit) && Cuttable(post, limit) && Utf16Len(s.text) <= limit ==>
      Aligned(Parts(Flatten(pre + [s] + post), limit), pre + [s] + post)
  }

  lemma SafeIsNeverCut(s: Segment)
    requires WellFormed(s) && Safe(s)
    ensures NeverCut(s)
  {
    forall pre: seq<Segment>, post: seq<Segment>, limit: int
      ensures UncutBetween(pre, s, post, limit)
    {
      if Cuttable(pre, limit) && Cuttable(post, limit) && Utf16Len(s.text) <= limit {
        PartsAligned(pre + [s] + post, limit);
      }
    }
  }

  function Pad(n: nat): seq<Segment> {
    seq(n, _ => Segment(Plain, "x"))
  }

  lemma {:induction false} FlattenPad(n: nat)
    ensures Flatten(Pad(n)) == seq(n, _ => 'x')
    ensures Utf16Len(Flatten(Pad(n))) == n
  {
    if n > 0 {
      assert Pad(n)[..n - 1] == Pad(n - 1);
      FlattenPad(n - 1);
    }
    NarrowUnits(Flatten(Pad(n)));
  }

  lemma {:induction false} EntityScan(text: string, cut: nat, window: nat)
    requires cut <= |text|
    ensures OpenEntityStart(text, cut, window) >= 0 ==> text[OpenEntityStart(text, cut, window)] == '&'
    ensures OpenEntityStart(text, cut, window) < 0 ==>
      forall i :: 0 <= i < cut && cut - i <= window && text[i] == '&' ==>
        exists j :: i < j < cut && (text[j] == ';' || IsBlank(text[j]))
    decreases cut
  {
    if cut > 0 && window > 0 {
      EntityScan(text, cut - 1, window - 1);
    }
  }

  lemma BlankOrUnclosed(t: string)
    requires !SafeTag(t)
    requires forall i :: 0 <= i < |t| && |t| - i <= ENTITY_WINDOW && t[i] == '&' ==>
      exists j :: i < j < |t| && (t[j] == ';' || IsBlank(t[j]))
    ensures exists b :: 0 <= b < |t| && IsBlank(t[b])
  {
  }

  /** n plain characters, the tag and one more, seen at the limit that ends right after
      the tag. */
  ghost predicate IsWitness(text: string, t: string, n: nat, limit: int) {
    && |text| == n + |t| + 1 && text[n..n + |t|] == t
    && (forall j :: 0 <= j < n ==> text[j] == 'x')
    && FitCut(text, limit) == n + |t| && Utf16Len(text) > limit
  }

  lemma BlankInWindow(t: string, text: string, n: nat)
    requires n + |t| <= |text| && text[n..n + |t|] == t && !SafeTag(t)
    requires OpenEntityStart(text, n + |t|, ENTITY_WINDOW) < 0
    ensures exists b :: 0 <= b < |t| && IsBlank(t[b])
  {
    EntityScan(text, n + |t|, ENTITY_WINDOW);
    forall i | 0 <= i < |t| && |t| - i <= ENTITY_WINDOW && t[i] == '&'
      ensures exists j :: i < j < |t| && (t[j] == ';' || IsBlank(t[j]))
    {
      assert text[n + i] == '&';
      var j :| n + i < j < n + |t| && (text[j] == ';' || IsBlank(text[j]));
      assert text[j] == t[j - n];
    }
    BlankOrUnclosed(t);
  }

  /** With five plain characters for every rune of the tag the cut falls inside an
      unsafe tag. */
  lemma UnsafeTagIsHit(t: string, text: string, n: nat, limit: int)
    requires 2 <= |t| && t[0] == '<' && t[|t| - 1] == '>' && !SafeTag(t) && n == 5 * |t|
    requires IsWitness(text, t, n, limit)
    ensures n < Cut(text, limit) < n + |t|
  {
    var fit := n + |t|;
    assert text[n] == t[0] && text[fit - 1] == t[|t| - 1];
    EntityScan(text, fit, ENTITY_WINDOW);
    if OpenEntityStart(text, fit, ENTITY_WINDOW) < 0 {
      BlankInWindow(t, text, n);
      var b :| 0 <= b < |t| && IsBlank(t[b]);
      assert text[n + b] == t[b];
    }
  }

  /** No prefix of the segments ends strictly between positions `low` and `high`. */
  ghost predicate NoBoundaryBetween(segs: seq<Segment>, low: nat, high: nat) {
    forall k :: 0 <= k <= |segs| ==> |Flatten(segs[..k])| <= low || |Flatten(segs[..k])| >= high
  }

  lemma NoBoundaryInside(pre: seq<Segment>, s: Segment, post: seq<Segment>)
    ensures NoBoundaryBetween(pre + [s] + post, |Flatten(pre)|, |Flatten(pre)| + |s.text|)
  {
    var segs := pre + [s] + post;
    forall k | 0 <= k <= |segs|
      ensures |Flatten(segs[..k])| <= |Flatten(pre)| || |Flatten(segs[..k])| >= |Flatten(pre)| + |s.text|
    {
      if k <= |pre| {
        assert segs[..k] == pre[..k];
        FlattenPrefix(pre, k);
      } else {
        assert segs[..k] == pre + [s] + segs[|pre| + 1..k];
        FlattenOf(segs[..k], pre + [s], segs[|pre| + 1..k]);
        FlattenOne(pre, s);
      }
    }
  }

  /** A prefix that fills the limit exactly is the longest that fits. */
  lemma WitnessFit(text: string, k: nat, limit: int)
    requires k < |text| && Utf16Len(text[..k]) == limit
    ensures FitCut(text, limit) == k && Utf16Len(text) > limit
  {
    FitCutReaches(text, k, limit);
    FitCutFits(text, limit);
    var fit := FitCut(text, limit);
    assert text[..fit] == text[..k] + text[k..fit] && text == text[..k] + text[k..];
    Utf16LenConcat(text[..k], text[k..fit]);
    Utf16LenConcat(text[..k], text[k..]);
    Utf16LenBounds(text[k..fit]);
    Utf16LenBounds(text[k..]);
  }

  lemma {:induction false} PadTagText(t: string, n: nat, text: string)
    requires text == Flatten(Pad(n) + [Segment(Tag, t)] + [Segment(Plain, "x")])
    ensures IsWitness(text, t, n, n + Utf16Len(t))
  {
    FlattenPad(n);
    FlattenTwo(Pad(n), Segment(Tag, t), Segment(Plain, "x"));
    PadTagString(Flatten(Pad(n)), t);
  }

  lemma FlattenTwo(segs: seq<Segment>, s: Segment, s': Segment)
    ensures Flatten(segs + [s] + [s']) == Flatten(segs) + s.text + s'.text
  {
    FlattenOne(segs, s);
    FlattenOne(segs + [s], s');
  }

  lemma PrefixOf(a: string, b: string, text: string)
    requires text == a + b
    ensures text[..|a|] == a
  {
  }

  lemma {:induction false} PadTagString(xs: string, t: string)
    requires Utf16Len(xs) == |xs| && forall j :: 0 <= j < |xs| ==> xs[j] == 'x'
    ensures IsWitness(xs + t + "x", t, |xs|, |xs| + Utf16Len(t))
  {
    var front := xs + t;
    var text := front + "x";
    Utf16LenConcat(xs, t);
    OneMoreUnit(front);
    PrefixOf(front, "x", text);
    WitnessFit(text, |front|, |xs| + Utf16Len(t));
  }

  lemma FlattenOne(segs: seq<Segment>, s: Segment)
    ensures Flatten(segs + [s]) == Flatten(segs) + s.text
  {
    assert (segs + [s])[..|segs|] == segs;
  }

  lemma OneMoreUnit(s: string)
    ensures Utf16Len(s + "x") == Utf16Len(s) + 1
  {
    Utf16LenConcat(s, ['x']);
    assert ['x'][1..] == [];
  }

  lemma HitNotAligned(low: nat, high: nat, segs: seq<Segment>, limit: int)
    requires Utf16Len(Flatten(segs)) > limit && Flatten(segs) != []
    requires low < Cut(Flatten(segs), limit) < high && NoBoundaryBetween(segs, low, high)
    ensures !Aligned(Parts(Flatten(segs), limit), segs)
  {
    var parts := Parts(Flatten(segs), limit);
    assert |parts[0]| == Cut(Flatten(segs), limit);
    forall k: nat ensures !AlignedAt(parts, segs, k) {
    }
  }

  lemma WitnessNotAligned(t: string, n: nat, segs: seq<Segment>, limit: int)
    requires WellFormed(Segment(Tag, t)) && !SafeTag(t) && n == 5 * |t| && limit == n + Utf16Len(t)
    requires segs == Pad(n) + [Segment(Tag, t)] + [Segment(Plain, "x")]
    ensures !Aligned(Parts(Flatten(segs), limit), segs)
  {
    NoBoundaryInside(Pad(n), Segment(Tag, t), [Segment(Plain, "x")]);
    FlattenPad(n);
    PadTagText(t, n, Flatten(segs));
    UnsafeTagIsHit(t, Flatten(segs), n, limit);
    HitNotAligned(n, n + |t|, segs, limit);
  }

  lemma PadCuttable(n: nat, limit: int)
    requires limit >= 1
    ensures Cuttable(Pad(n), limit) && Cuttable([Segment(Plain, "x")], limit)
  {
    OneMoreUnit("");
    assert "" + "x" == "x";
    assert CuttableSegment(Segment(Plain, "x"), limit);
  }

  lemma UnsafeTagIsCut(t: string)
    requires WellFormed(Segment(Tag, t)) && !SafeTag(t)
    ensures exists n, limit :: !UncutBetween(Pad(n), Segment(Tag, t), [Segment(Plain, "x")], limit)
  {
    var n := 5 * |t|;
    var limit := n + Utf16Len(t);
    Utf16LenBounds(t);
    assert |t| >= 2;
    PadCuttable(n, limit);
    WitnessNotAligned(t, n, Pad(n) + [Segment(Tag, t)] + [Segment(Plain, "x")], limit);
    assert !UncutBetween(Pad(n), Segment(Tag, t), [Segment(Plain, "x")], limit);
  }

  /** Main result: a tag is never cut, in any context, if and only if it is safe. The
      documentation promises it for every tag (formatters.go:209-211). */
  lemma NeverCutIff(t: string)
    requires WellFormed(Segment(Tag, t))
    ensures NeverCut(Segment(Tag, t)) <==> SafeTag(t)
  {
    if SafeTag(t) {
      SafeIsNeverCut(Segment(Tag, t));
    } else {
      UnsafeTagIsCut(t);
      var n, limit :| !UncutBetween(Pad(n), Segment(Tag, t), [Segment(Plain, "x")], limit);
    }
  }

  /** A link tag has a blank before its attribute, so the promise fails for it. */
  lemma LinkTagCanBeCut()
    ensures WellFormed(Segment(Tag, "<a href=u>")) && !NeverCut(Segment(Tag, "<a href=u>"))
  {
    var t := "<a href=u>";
    assert t[2] == ' ';
    NeverCutIff(t);
  }

  // ---- Entities ----

  lemma {:induction false} NoAmpersand(text: string, cut: nat, window: nat)
    requires cut <= |text| && forall j :: 0 <= j < cut && cut - j <= window ==> text[j] != '&'
    ensures OpenEntityStart(text, cut, window) < 0
    decreases cut
  {
    if cut > 0 && window > 0 {
      NoAmpersand(text, cut - 1, window - 1);
    }
  }

  /** The first twelve runes of a long entity fill the limit; the look-back does not reach
      its '&'. */
  lemma {:induction false} LongEntityIsHit(xs: string, t: string, text: string, limit: int)
    requires WellFormed(Segment(Entity, t)) && |t| > 12 && text == xs + t
    requires Utf16Len(xs) + Utf16Len(t[..12]) == limit
    requires forall j :: 0 <= j < |xs| ==> xs[j] == 'x'
    ensures Utf16Len(text) > limit && Cut(text, limit) == |xs| + 12
  {
    var fit := |xs| + 12;
    assert text[..fit] == xs + t[..12];
    Utf16LenConcat(xs, t[..12]);
    WitnessFit(text, fit, limit);
    assert forall j :: |xs| <= j < fit ==> text[j] == t[j - |xs|];
    assert forall j :: 0 <= j < fit ==> text[j] == if j < |xs| then xs[j] else t[j - |xs|];
    NoAngles(text, 0, fit);
    NoAmpersand(text, fit, ENTITY_WINDOW);
  }

  lemma LongEntityIsCut(t: string)
    requires WellFormed(Segment(Entity, t)) && |t| > 12
    ensures exists n, limit :: !UncutBetween(Pad(n), Segment(Entity, t), [], limit)
  {
    var n, s := Utf16Len(t), Segment(Entity, t);
    var limit := n + Utf16Len(t[..12]);
    Utf16LenBounds(t[..12]);
    PadCuttable(n, limit);
    FlattenPad(n);
    var segs := Pad(n) + [s] + [];
    assert segs == Pad(n) + [s];
    FlattenOne(Pad(n), s);
    NoBoundaryInside(Pad(n), s, []);
    LongEntityIsHit(Flatten(Pad(n)), t, Flatten(segs), limit);
    HitNotAligned(n, n + |t|, segs, limit);
    assert !UncutBetween(Pad(n), s, [], limit);
  }

  /** Main result: an entity is never cut if and only if it has at most twelve runes. */
  lemma NeverCutEntityIff(t: string)
    requires WellFormed(Segment(Entity, t))
    ensures NeverCut(Segment(Entity, t)) <==> |t| <= 12
  {
    if |t| <= 12 {
      SafeIsNeverCut(Segment(Entity, t));
    } else {
      LongEntityIsCut(t);
      var n, limit :| !UncutBetween(Pad(n), Segment(Entity, t), [], limit);
    }
  }
}
