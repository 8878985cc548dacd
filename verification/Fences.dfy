/** Fenced code blocks: shieldFencedCodeBlocks and the fence loop of
    shieldMarkdownCodeBlocksRaw (parser.go), and the round trip of the rich message
    path through the restore loop. */
module Fences {
  import opened Placeholders
  import opened Results
  import opened Text
  import CodeSpans

  // ---- Lines ----

  /** strings.ReplaceAll(text, "\r\n", "\n"). */
  function DropCrLf(text: string): string {
    if text == [] then []
    else if |text| >= 2 && text[0] == '\r' && text[1] == '\n' then "\n" + DropCrLf(text[2..])
    else [text[0]] + DropCrLf(text[1..])
  }

  /** strings.ReplaceAll(text, "\r", "\n"). */
  function CrToLf(text: string): string {
    seq(|text|, i requires 0 <= i < |text| => if text[i] == '\r' then '\n' else text[i])
  }

  function Normalised(text: string): string {
    CrToLf(DropCrLf(text))
  }

  /** Between a and b the two characters of one line break are torn apart. */
  predicate TearsBreak(a: string, b: string) {
    a != "" && a[|a| - 1] == '\r' && b != "" && b[0] == '\n'
  }

  lemma DropBreak(text: string)
    ensures DropCrLf("\r\n" + text) == "\n" + DropCrLf(text)
  {
    assert ("\r\n" + text)[2..] == text;
  }

  lemma DropOther(c: char, text: string)
    requires c != '\r' || text == "" || text[0] != '\n'
    ensures DropCrLf([c] + text) == [c] + DropCrLf(text)
  {
    assert ([c] + text)[1..] == text;
  }

  lemma {:induction false} DropConcat(a: string, b: string)
    requires !TearsBreak(a, b)
    ensures DropCrLf(a + b) == DropCrLf(a) + DropCrLf(b)
    decreases |a|
  {
    hide DropCrLf;
    if a == "" {
      DropNothing();
      assert a + b == b && [] + DropCrLf(b) == DropCrLf(b);
    } else if |a| >= 2 && a[0] == '\r' && a[1] == '\n' {
      var rest := a[2..];
      assert a == "\r\n" + rest && a + b == "\r\n" + (rest + b);
      DropConcat(rest, b);
      DropBreak(rest);
      DropBreak(rest + b);
      assert "\n" + DropCrLf(rest) + DropCrLf(b) == "\n" + (DropCrLf(rest) + DropCrLf(b));
    } else {
      var c, rest := a[0], a[1..];
      assert a == [c] + rest && a + b == [c] + (rest + b);
      DropConcat(rest, b);
      DropOther(c, rest);
      DropOther(c, rest + b);
      assert [c] + DropCrLf(rest) + DropCrLf(b) == [c] + (DropCrLf(rest) + DropCrLf(b));
    }
  }

  lemma DropNothing()
    ensures DropCrLf("") == ""
  {
  }

  lemma NormalisedConcat(a: string, b: string)
    requires !TearsBreak(a, b)
    ensures Normalised(a + b) == Normalised(a) + Normalised(b)
  {
    DropConcat(a, b);
  }

  lemma {:induction false} DropKeepsPlain(text: string)
    requires '\r' !in text
    ensures DropCrLf(text) == text
  {
    if text != "" {
      DropKeepsPlain(text[1..]);
    }
  }

  /** No carriage return is left, and a text without one stays as it is. */
  lemma NormalisedPlain(text: string)
    ensures '\r' !in Normalised(text)
    ensures '\r' !in text ==> Normalised(text) == text
  {
    if '\r' !in text {
      DropKeepsPlain(text);
    }
  }

  /** Main result: each of the three line breaks, wherever it stands, becomes one newline, and
      the text on either side is normalised on its own. */
  lemma NormalisedAtBreak(a: string, b: string)
    ensures Normalised(a + "\r\n" + b) == Normalised(a) + "\n" + Normalised(b)
    ensures !TearsBreak("\r", b) ==> Normalised(a + "\r" + b) == Normalised(a) + "\n" + Normalised(b)
    ensures !TearsBreak(a, "\n") ==> Normalised(a + "\n" + b) == Normalised(a) + "\n" + Normalised(b)
  {
    NormalisedAround(a, "\r\n", b);
    if !TearsBreak("\r", b) {
      NormalisedAround(a, "\r", b);
    }
    if !TearsBreak(a, "\n") {
      NormalisedAround(a, "\n", b);
    }
  }

  lemma BreakAlone(br: string)
    requires br in {"\r\n", "\r", "\n"}
    ensures Normalised(br) == "\n"
  {
    if |br| == 2 {
      assert br[2..] == "";
    } else {
      assert br[1..] == "";
    }
  }

  lemma NormalisedAround(a: string, br: string, b: string)
    requires br in {"\r\n", "\r", "\n"} && !TearsBreak(a, br) && !TearsBreak(br, b)
    ensures Normalised(a + br + b) == Normalised(a) + "\n" + Normalised(b)
  {
    BreakAlone(br);
    assert a + br + b == a + (br + b);
    NormalisedConcat(br, b);
    NormalisedConcat(a, br + b);
    assert Normalised(a) + ("\n" + Normalised(b)) == Normalised(a) + "\n" + Normalised(b);
  }

  function SplitLines(text: string): (lines: seq<string>)
    ensures lines != []
  {
    if text == [] then [""]
    else
      var rest := SplitLines(text[1..]);
      if text[0] == '\n' then [""] + rest else [[text[0]] + rest[0]] + rest[1..]
  }

  function JoinLines(lines: seq<string>): string {
    if lines == [] then ""
    else if |lines| == 1 then lines[0]
    else lines[0] + "\n" + JoinLines(lines[1..])
  }

  lemma {:induction false} JoinOfSplit(text: string)
    ensures JoinLines(SplitLines(text)) == text
  {
    if text != [] {
      JoinOfSplit(text[1..]);
      var rest := SplitLines(text[1..]);
      if text[0] == '\n' {
        assert ([""] + rest)[1..] == rest;
        assert text == "\n" + text[1..];
      } else {
        var lines := [[text[0]] + rest[0]] + rest[1..];
        assert lines[1..] == rest[1..];
        assert text == [text[0]] + text[1..];
      }
    }
  }

  /** Main result: the lines are the pieces between the newlines, for the only lines without a
      newline that join to a text are its own. */
  lemma {:induction false} SplitOfJoin(lines: seq<string>)
    requires lines != [] && forall i :: 0 <= i < |lines| ==> '\n' !in lines[i]
    ensures SplitLines(JoinLines(lines)) == lines
    decreases |lines|
  {
    if |lines| == 1 {
      SplitOne(lines[0]);
    } else {
      SplitOfJoin(lines[1..]);
      SplitFirst(lines[0], JoinLines(lines[1..]));
      assert lines == [lines[0]] + lines[1..];
    }
  }

  lemma {:induction false} SplitOne(line: string)
    requires '\n' !in line
    ensures SplitLines(line) == [line]
  {
    if line != "" {
      SplitOne(line[1..]);
      assert line == [line[0]] + line[1..];
    }
  }

  lemma {:induction false} SplitFirst(line: string, rest: string)
    requires '\n' !in line
    ensures SplitLines(line + "\n" + rest) == [line] + SplitLines(rest)
  {
    var text := line + "\n" + rest;
    if line == "" {
      assert text[1..] == rest;
    } else {
      assert text[1..] == line[1..] + "\n" + rest;
      SplitFirst(line[1..], rest);
      assert line == [line[0]] + line[1..];
    }
  }

  lemma {:induction false} LinesHoldNoBreak(text: string)
    ensures forall i :: 0 <= i < |SplitLines(text)| ==> '\n' !in SplitLines(text)[i]
  {
    if text != "" {
      LinesHoldNoBreak(text[1..]);
    }
  }

  // ---- Fence lines ----

  function Indent(line: string): (n: nat)
    ensures n <= |line|
  {
    if line != [] && line[0] == ' ' then 1 + Indent(line[1..]) else 0
  }

  function RunLength(s: string, c: char): (n: nat)
    ensures n <= |s|
  {
    if s != [] && s[0] == c then 1 + RunLength(s[1..], c) else 0
  }

  function Trimmed(line: string): string {
    line[Indent(line)..]
  }

  /** Up to three spaces, then at least three backticks or tildes. */
  predicate Opens(line: string) {
    var t := Trimmed(line);
    Indent(line) <= 3 && t != [] && (t[0] == '`' || t[0] == '~') && RunLength(t, t[0]) >= 3
  }

  /** At least n fence characters, then only fence characters and blanks. */
  predicate Closes(line: string, c: char, n: nat) {
    var t := Trimmed(line);
    Indent(line) <= 3 && RunLength(t, c) >= n
    && forall i :: 0 <= i < |TrimSpace(t[n..])| ==> TrimSpace(t[n..])[i] in {c, ' ', '\t'}
  }

  function FenceChar(line: string): char
    requires Opens(line)
  {
    Trimmed(line)[0]
  }

  function FenceLength(line: string): nat
    requires Opens(line)
  {
    RunLength(Trimmed(line), FenceChar(line))
  }

  function Repeat(c: char, n: nat): string {
    seq(n, _ => c)
  }

  // What makes a line a fence, without the scan: at most three blanks, a run, and the rest.

  predicate FenceLine(line: string, lead: nat, c: char, n: nat, rest: string) {
    lead <= 3 && line == Repeat(' ', lead) + Repeat(c, n) + rest
  }

  predicate IsFenceChar(c: char) {
    c == '`' || c == '~'
  }

  lemma {:induction false} IndentIs(line: string)
    ensures line == Repeat(' ', Indent(line)) + Trimmed(line)
    ensures Trimmed(line) == "" || Trimmed(line)[0] != ' '
  {
    if line != "" && line[0] == ' ' {
      IndentIs(line[1..]);
    }
  }

  lemma {:induction false} IndentUnique(lead: nat, t: string)
    requires t == "" || t[0] != ' '
    ensures Indent(Repeat(' ', lead) + t) == lead && Trimmed(Repeat(' ', lead) + t) == t
  {
    var line := Repeat(' ', lead) + t;
    if lead == 0 {
      assert line == t;
    } else {
      assert line[1..] == Repeat(' ', lead - 1) + t;
      IndentUnique(lead - 1, t);
    }
  }

  lemma {:induction false} RunIs(s: string, c: char)
    ensures forall i :: 0 <= i < RunLength(s, c) ==> s[i] == c
    ensures RunLength(s, c) < |s| ==> s[RunLength(s, c)] != c
  {
    if s != "" && s[0] == c {
      RunIs(s[1..], c);
    }
  }

  lemma RunFirst(s: string, c: char, n: nat)
    requires n <= RunLength(s, c)
    ensures s == Repeat(c, n) + s[n..]
  {
    RunIs(s, c);
    assert Repeat(c, n) == s[..n];
  }

  lemma {:induction false} RunReaches(c: char, n: nat, rest: string)
    ensures RunLength(Repeat(c, n) + rest, c) == n + RunLength(rest, c)
  {
    var s := Repeat(c, n) + rest;
    if n == 0 {
      assert s == rest;
    } else {
      assert s[1..] == Repeat(c, n - 1) + rest;
      RunReaches(c, n - 1, rest);
    }
  }

  /** A line that begins with at most three blanks and three or more backticks or tildes opens a
      fence of that character, as long as the whole run. */
  lemma FenceLineOpens(line: string, lead: nat, c: char, n: nat, rest: string)
    requires FenceLine(line, lead, c, n, rest) && IsFenceChar(c) && n >= 3
    ensures Opens(line) && FenceChar(line) == c && FenceLength(line) == n + RunLength(rest, c)
    ensures rest == "" || rest[0] != c ==> FenceLength(line) == n && Trimmed(line)[n..] == rest
  {
    var t := Repeat(c, n) + rest;
    assert line == Repeat(' ', lead) + t;
    IndentUnique(lead, t);
    RunReaches(c, n, rest);
  }

  lemma OpeningIsFence(line: string) returns (lead: nat, c: char, rest: string)
    requires Opens(line)
    ensures IsFenceChar(c) && FenceLine(line, lead, c, 3, rest)
  {
    IndentIs(line);
    var t := Trimmed(line);
    RunFirst(t, t[0], 3);
    lead, c, rest := Indent(line), t[0], t[3..];
  }

  /** Main result: those are all the lines that open a fence. */
  lemma OpensIff(line: string)
    ensures Opens(line) <==> exists lead: nat, c, rest :: IsFenceChar(c) && FenceLine(line, lead, c, 3, rest)
  {
    if Opens(line) {
      var lead, c, rest := OpeningIsFence(line);
    }
    hide Opens, FenceLine;
    forall lead: nat, c, rest | IsFenceChar(c) && FenceLine(line, lead, c, 3, rest) ensures Opens(line) {
      FenceLineOpens(line, lead, c, 3, rest);
    }
  }

  predicate IsTail(rest: string, l: string, core: string, r: string, c: char) {
    && Around(rest, l, core, r) && AllSpace(l) && AllSpace(r)
    && forall i :: 0 <= i < |core| ==> core[i] in {c, ' ', '\t'}
  }

  lemma TailIff(rest: string, c: char)
    ensures (forall i :: 0 <= i < |TrimSpace(rest)| ==> TrimSpace(rest)[i] in {c, ' ', '\t'})
       <==> exists l, core, r :: IsTail(rest, l, core, r, c)
  {
    TrimSpaceIs(rest);
    var l, r :| AllSpace(l) && AllSpace(r) && Around(rest, l, TrimSpace(rest), r);
    if forall i :: 0 <= i < |TrimSpace(rest)| ==> TrimSpace(rest)[i] in {c, ' ', '\t'} {
      assert IsTail(rest, l, TrimSpace(rest), r, c);
    }
    forall l', core, r' | IsTail(rest, l', core, r', c)
      ensures forall i :: 0 <= i < |TrimSpace(rest)| ==> TrimSpace(rest)[i] in {c, ' ', '\t'}
    {
      CoreHolds(rest, l, TrimSpace(rest), r, l', core, r', c);
    }
  }

  /** What is left without white space at its ends lies inside any other such part. */
  lemma CoreHolds(s: string, l: string, t: string, r: string, l': string, core: string, r': string, c: char)
    requires Around(s, l, t, r) && (t != "" ==> !IsSpace(t[0]) && !IsSpace(t[|t| - 1]))
    requires IsTail(s, l', core, r', c)
    ensures forall i :: 0 <= i < |t| ==> t[i] in {c, ' ', '\t'}
  {
    if t != "" {
      assert s[|l|] == t[0] && s[|l| + |t| - 1] == t[|t| - 1];
      assert forall k :: 0 <= k < |l'| ==> s[k] == l'[k];
      assert forall k :: |l'| + |core| <= k < |s| ==> s[k] == r'[k - |l'| - |core|];
      forall i | 0 <= i < |t| ensures t[i] in {c, ' ', '\t'} {
        assert t[i] == s[|l| + i] == core[|l| + i - |l'|];
      }
    }
  }

  lemma ClosesWithTail(line: string, lead: nat, c: char, n: nat, rest: string)
    requires IsFenceChar(c) && FenceLine(line, lead, c, n, rest) && n >= 1
    ensures Closes(line, c, n) <==> forall i :: 0 <= i < |TrimSpace(rest)| ==> TrimSpace(rest)[i] in {c, ' ', '\t'}
  {
    hide TrimSpace;
    var t := Repeat(c, n) + rest;
    assert line == Repeat(' ', lead) + t;
    IndentUnique(lead, t);
    RunReaches(c, n, rest);
    assert t[n..] == rest;
  }

  lemma ClosingIsFence(line: string, c: char, n: nat) returns (lead: nat, rest: string)
    requires Closes(line, c, n)
    ensures FenceLine(line, lead, c, n, rest)
  {
    hide TrimSpace;
    IndentIs(line);
    var t := Trimmed(line);
    RunFirst(t, c, n);
    lead, rest := Indent(line), t[n..];
  }

  /** Main result: a line closes a fence of n characters c if and only if it begins with at most
      three blanks and n such characters and holds, up to white space around it, only more of
      them, blanks and tabs. */
  lemma ClosesIff(line: string, c: char, n: nat)
    requires IsFenceChar(c) && n >= 1
    ensures Closes(line, c, n)
       <==> exists lead: nat, rest, l, core, r :: FenceLine(line, lead, c, n, rest) && IsTail(rest, l, core, r, c)
  {
    hide TrimSpace, Repeat, IsTail;
    if Closes(line, c, n) {
      var lead, rest := ClosingIsFence(line, c, n);
      hide Closes;
      ClosesWithTail(line, lead, c, n, rest);
      TailIff(rest, c);
      hide FenceLine;
    }
    hide Closes, FenceLine;
    forall lead: nat, rest, l, core, r | FenceLine(line, lead, c, n, rest) && IsTail(rest, l, core, r, c)
      ensures Closes(line, c, n)
    {
      ClosesWithTail(line, lead, c, n, rest);
      TailIff(rest, c);
    }
  }

  /** The first line from i on that closes the fence, or |lines|. */
  function FirstClose(lines: seq<string>, i: nat, c: char, n: nat): (k: nat)
    requires i <= |lines|
    ensures i <= k <= |lines|
    decreases |lines| - i
  {
    if i == |lines| || Closes(lines[i], c, n) then i else FirstClose(lines, i + 1, c, n)
  }

  lemma {:induction false} FirstCloseIsFirst(lines: seq<string>, i: nat, c: char, n: nat)
    requires i <= |lines|
    ensures FirstClose(lines, i, c, n) < |lines| ==> Closes(lines[FirstClose(lines, i, c, n)], c, n)
    ensures forall j :: i <= j < FirstClose(lines, i, c, n) ==> !Closes(lines[j], c, n)
    decreases |lines| - i
  {
    if i < |lines| && !Closes(lines[i], c, n) {
      FirstCloseIsFirst(lines, i + 1, c, n);
    }
  }

  function CloseOf(lines: seq<string>, open: nat): (k: nat)
    requires open < |lines| && Opens(lines[open])
    ensures open < k <= |lines|
  {
    FirstClose(lines, open + 1, FenceChar(lines[open]), FenceLength(lines[open]))
  }

  /** A fenced block: its first line, its code, and its last line unless the text ends
      inside it. */
  datatype Fenced = Fenced(header: string, code: seq<string>, closed: bool, closer: string)

  function FencedAt(lines: seq<string>, open: nat): Fenced
    requires open < |lines| && Opens(lines[open])
  {
    var k := CloseOf(lines, open);
    Fenced(lines[open], lines[open + 1..k], k < |lines|, if k < |lines| then lines[k] else "")
  }

  /** The loop's fence variables while inside a fence: its first line, its character and
      length, and the code so far. */
  datatype Fence = Fence(header: string, c: char, n: nat, code: seq<string>)

  /** The position after the block that opens at `open`. */
  function After(lines: seq<string>, open: nat): (i: nat)
    requires open < |lines| && Opens(lines[open])
    ensures open < i <= |lines|
  {
    if CloseOf(lines, open) < |lines| then CloseOf(lines, open) + 1 else |lines|
  }

  /** The blocks from line i on. */
  function Blocks(lines: seq<string>, i: nat): seq<Fenced>
    requires i <= |lines|
    decreases |lines| - i
  {
    if i == |lines| then []
    else if Opens(lines[i]) then [FencedAt(lines, i)] + Blocks(lines, After(lines, i))
    else Blocks(lines, i + 1)
  }

  /** A block as the positions of its opening and its closing line; |lines| when it is open at
      the end. */
  datatype Mark = Mark(open: nat, close: nat)

  ghost predicate IsBlock(lines: seq<string>, m: Mark) {
    && m.open < m.close <= |lines| && Opens(lines[m.open])
    && (m.close < |lines| ==> Closes(lines[m.close], FenceChar(lines[m.open]), FenceLength(lines[m.open])))
    && forall j :: m.open < j < m.close ==> !Closes(lines[j], FenceChar(lines[m.open]), FenceLength(lines[m.open]))
  }

  /** The blocks from line i on: each begins at the first opening line after the one before. */
  ghost predicate IsBlockList(lines: seq<string>, i: nat, marks: seq<Mark>)
    decreases |marks|
  {
    if marks == [] then forall j :: i <= j < |lines| ==> !Opens(lines[j])
    else
      && i <= marks[0].open && IsBlock(lines, marks[0])
      && (forall j :: i <= j < marks[0].open ==> !Opens(lines[j]))
      && IsBlockList(lines, marks[0].close + 1, marks[1..])
  }

  lemma BlockUnique(lines: seq<string>, a: Mark, b: Mark)
    requires IsBlock(lines, a) && IsBlock(lines, b) && a.open == b.open
    ensures a == b
  {
  }

  /** Main result: a text has one list of fenced blocks. */
  lemma {:induction false} BlockListUnique(lines: seq<string>, i: nat, a: seq<Mark>, b: seq<Mark>)
    requires IsBlockList(lines, i, a) && IsBlockList(lines, i, b)
    ensures a == b
    decreases |a|
  {
    if a != [] && b != [] {
      BlockUnique(lines, a[0], b[0]);
      BlockListUnique(lines, a[0].close + 1, a[1..], b[1..]);
      assert a == [a[0]] + a[1..] && b == [b[0]] + b[1..];
    }
  }

  function BlockOf(lines: seq<string>, m: Mark): Fenced {
    if m.open < m.close <= |lines| then
      Fenced(lines[m.open], lines[m.open + 1..m.close], m.close < |lines|,
             if m.close < |lines| then lines[m.close] else "")
    else Fenced("", [], false, "")
  }

  lemma FirstBlock(lines: seq<string>, i: nat)
    requires i < |lines| && Opens(lines[i])
    ensures IsBlock(lines, Mark(i, CloseOf(lines, i)))
    ensures BlockOf(lines, Mark(i, CloseOf(lines, i))) == FencedAt(lines, i)
  {
    hide Opens, Closes;
    FirstCloseIsFirst(lines, i + 1, FenceChar(lines[i]), FenceLength(lines[i]));
  }

  /** Main result: the scanner takes the blocks of that list, each with its lines. */
  lemma {:induction false} BlocksAre(lines: seq<string>, i: nat) returns (marks: seq<Mark>)
    requires i <= |lines|
    ensures IsBlockList(lines, i, marks) && |marks| == |Blocks(lines, i)|
    ensures forall j :: 0 <= j < |marks| ==> Blocks(lines, i)[j] == BlockOf(lines, marks[j])
    decreases |lines| - i
  {
    hide Opens, Closes, FencedAt, BlockOf;
    marks := [];
    if i < |lines| && Opens(lines[i]) {
      var first := Mark(i, CloseOf(lines, i));
      FirstBlock(lines, i);
      hide IsBlock, CloseOf;
      var more := BlocksAre(lines, After(lines, i));
      marks := [first] + more;
      assert marks[1..] == more;
    } else if i < |lines| {
      marks := BlocksAre(lines, i + 1);
    }
  }

  /** The lines from i on, each block replaced by one line that holds a token. */
  function ShieldedLines(lines: seq<string>, i: nat, next: nat): seq<Syms>
    requires i <= |lines|
    decreases |lines| - i
  {
    if i == |lines| then []
    else if Opens(lines[i]) then [[Tok(next)]] + ShieldedLines(lines, After(lines, i), next + 1)
    else [Plain(lines[i])] + ShieldedLines(lines, i + 1, next)
  }

  // ---- The line loop ----

  function Stored(blocks: seq<Fenced>, content: Fenced -> Syms): seq<Syms> {
    if blocks == [] then [] else [content(blocks[0])] + Stored(blocks[1..], content)
  }

  lemma {:induction false} StoredEarlier(blocks: seq<Fenced>, content: Fenced -> Syms, n: nat)
    requires forall b :: EarlierOnly(content(b), n)
    ensures |Stored(blocks, content)| == |blocks|
    ensures forall i :: 0 <= i < |blocks| ==> EarlierOnly(Stored(blocks, content)[i], n)
  {
    if blocks != [] {
      StoredEarlier(blocks[1..], content, n);
    }
  }

  lemma Regroup<T>(a: seq<T>, b: seq<T>, c: seq<T>)
    ensures a + (b + c) == (a + b) + c
  {
  }

  /** The block that the open fence becomes when it is read on from line k. */
  function Completed(lines: seq<string>, k: nat, f: Fence): (r: (Fenced, nat))
    requires k <= |lines|
    ensures r.1 <= |lines|
  {
    var e := FirstClose(lines, k, f.c, f.n);
    (Fenced(f.header, f.code + lines[k..e], e < |lines|, if e < |lines| then lines[e] else ""),
     if e < |lines| then e + 1 else e)
  }

  /** What the loop adds from line k on, outside a fence or inside one. */
  ghost predicate Adds(lines: seq<string>, k: nat, fence: Option<Fence>, id: nat, out: seq<Syms>, blocks: seq<Fenced>) {
    k <= |lines| &&
    match fence
    case None => out == ShieldedLines(lines, k, id) && blocks == Blocks(lines, k)
    case Some(f) =>
      var (b, after) := Completed(lines, k, f);
      out == [[Tok(id)]] + ShieldedLines(lines, after, id + 1) && blocks == [b] + Blocks(lines, after)
  }

  /** The loop before line k: whatever it still adds completes what it has. */
  ghost predicate Scanning(lines: seq<string>, next: nat, k: nat, fence: Option<Fence>, id: nat,
                           outLines: seq<Syms>, blocks: seq<Fenced>) {
    && k <= |lines| && id == next + |blocks|
    && forall out, more :: Adds(lines, k, fence, id, out, more) ==>
       Adds(lines, 0, None, next, outLines + out, blocks + more)
  }

  lemma AddsPlain(lines: seq<string>, k: nat, id: nat, out: seq<Syms>, more: seq<Fenced>)
    requires k < |lines| && !Opens(lines[k]) && Adds(lines, k + 1, None, id, out, more)
    ensures Adds(lines, k, None, id, [Plain(lines[k])] + out, more)
  {
  }

  lemma CompletedAtOpen(lines: seq<string>, k: nat, f: Fence)
    requires k < |lines| && Opens(lines[k]) && f == Fence(lines[k], FenceChar(lines[k]), FenceLength(lines[k]), [])
    ensures Completed(lines, k + 1, f) == (FencedAt(lines, k), After(lines, k))
  {
    var e := CloseOf(lines, k);
    assert [] + lines[k + 1..e] == lines[k + 1..e];
  }

  lemma AddsOpen(lines: seq<string>, k: nat, f: Fence, id: nat, out: seq<Syms>, more: seq<Fenced>)
    requires k < |lines| && Opens(lines[k]) && f == Fence(lines[k], FenceChar(lines[k]), FenceLength(lines[k]), [])
    requires Adds(lines, k + 1, Some(f), id, out, more)
    ensures Adds(lines, k, None, id, out, more)
  {
    hide Completed;
    hide FencedAt;
    CompletedAtOpen(lines, k, f);
  }

  lemma AddsCode(lines: seq<string>, k: nat, f: Fence, f': Fence, id: nat, out: seq<Syms>, more: seq<Fenced>)
    requires k < |lines| && !Closes(lines[k], f.c, f.n) && f' == f.(code := f.code + [lines[k]])
    requires Adds(lines, k + 1, Some(f'), id, out, more)
    ensures Adds(lines, k, Some(f), id, out, more)
  {
    var e := FirstClose(lines, k + 1, f.c, f.n);
    assert FirstClose(lines, k, f.c, f.n) == e;
    assert lines[k..e] == [lines[k]] + lines[k + 1..e];
    Regroup(f.code, [lines[k]], lines[k + 1..e]);
    assert Completed(lines, k, f) == Completed(lines, k + 1, f');
  }

  lemma AddsClose(lines: seq<string>, k: nat, k': nat, f: Fence, b: Fenced, id: nat, out: seq<Syms>, more: seq<Fenced>)
    requires k <= |lines| && (k == |lines| || Closes(lines[k], f.c, f.n)) && k' == (if k < |lines| then k + 1 else k)
    requires b == if k < |lines| then Fenced(f.header, f.code, true, lines[k]) else Fenced(f.header, f.code, false, "")
    requires Adds(lines, k', None, id + 1, out, more)
    ensures Adds(lines, k, Some(f), id, [[Tok(id)]] + out, [b] + more)
  {
    assert FirstClose(lines, k, f.c, f.n) == k;
    assert f.code + lines[k..k] == f.code;
  }

  lemma ScanPlain(lines: seq<string>, next: nat, k: nat, id: nat, outLines: seq<Syms>, blocks: seq<Fenced>,
                  longer: seq<Syms>)
    requires Scanning(lines, next, k, None, id, outLines, blocks) && k < |lines| && !Opens(lines[k])
    requires longer == outLines + [Plain(lines[k])]
    ensures Scanning(lines, next, k + 1, None, id, longer, blocks)
  {
    forall out, more | Adds(lines, k + 1, None, id, out, more)
      ensures Adds(lines, 0, None, next, longer + out, blocks + more)
    {
      AddsPlain(lines, k, id, out, more);
      Regroup(outLines, [Plain(lines[k])], out);
    }
  }

  lemma ScanOpen(lines: seq<string>, next: nat, k: nat, id: nat, f: Fence, outLines: seq<Syms>, blocks: seq<Fenced>)
    requires Scanning(lines, next, k, None, id, outLines, blocks) && k < |lines| && Opens(lines[k])
    requires f == Fence(lines[k], FenceChar(lines[k]), FenceLength(lines[k]), [])
    ensures Scanning(lines, next, k + 1, Some(f), id, outLines, blocks)
  {
    forall out, more | Adds(lines, k + 1, Some(f), id, out, more)
      ensures Adds(lines, 0, None, next, outLines + out, blocks + more)
    {
      AddsOpen(lines, k, f, id, out, more);
    }
  }

  lemma ScanCode(lines: seq<string>, next: nat, k: nat, id: nat, f: Fence, f': Fence, outLines: seq<Syms>,
                 blocks: seq<Fenced>)
    requires Scanning(lines, next, k, Some(f), id, outLines, blocks)
    requires k < |lines| && !Closes(lines[k], f.c, f.n) && f' == f.(code := f.code + [lines[k]])
    ensures Scanning(lines, next, k + 1, Some(f'), id, outLines, blocks)
  {
    forall out, more | Adds(lines, k + 1, Some(f'), id, out, more)
      ensures Adds(lines, 0, None, next, outLines + out, blocks + more)
    {
      AddsCode(lines, k, f, f', id, out, more);
    }
  }

  lemma ScanClose(lines: seq<string>, next: nat, k: nat, k': nat, id: nat, f: Fence, b: Fenced,
                  outLines: seq<Syms>, blocks: seq<Fenced>, longer: seq<Syms>, moreBlocks: seq<Fenced>)
    requires Scanning(lines, next, k, Some(f), id, outLines, blocks)
    requires (k == |lines| || Closes(lines[k], f.c, f.n)) && k' == (if k < |lines| then k + 1 else k)
    requires b == if k < |lines| then Fenced(f.header, f.code, true, lines[k]) else Fenced(f.header, f.code, false, "")
    requires longer == outLines + [[Tok(id)]] && moreBlocks == blocks + [b]
    ensures Scanning(lines, next, k', None, id + 1, longer, moreBlocks)
  {
    forall out, more | Adds(lines, k', None, id + 1, out, more)
      ensures Adds(lines, 0, None, next, longer + out, moreBlocks + more)
    {
      AddsClose(lines, k, k', f, b, id, out, more);
      Regroup(outLines, [[Tok(id)]], out);
      Regroup(blocks, [b], more);
    }
  }

  lemma ScanStart(lines: seq<string>, next: nat)
    ensures Scanning(lines, next, 0, None, next, [], [])
  {
    forall out, more | Adds(lines, 0, None, next, out, more) ensures Adds(lines, 0, None, next, [] + out, [] + more) {
      assert [] + out == out && [] + more == more;
    }
  }

  lemma ScanEnd(lines: seq<string>, next: nat, id: nat, outLines: seq<Syms>, blocks: seq<Fenced>)
    requires Scanning(lines, next, |lines|, None, id, outLines, blocks)
    ensures outLines == ShieldedLines(lines, 0, next) && blocks == Blocks(lines, 0)
  {
    assert Adds(lines, |lines|, None, id, [], []);
    assert outLines + [] == outLines && blocks + [] == blocks;
  }

  /** The fence loop, which the source has twice: the lines with tokens in place of the
      blocks, and the blocks in order. */
  method ScanFences(lines: seq<string>, next: nat) returns (outLines: seq<Syms>, blocks: seq<Fenced>)
    ensures outLines == ShieldedLines(lines, 0, next)
    ensures blocks == Blocks(lines, 0)
  {
    outLines, blocks := [], [];
    var fence: Option<Fence> := None;
    var id := next;
    ScanStart(lines, next);
    for k := 0 to |lines|
      invariant Scanning(lines, next, k, fence, id, outLines, blocks)
    {
      var line := lines[k];
      if fence.None? {
        if Opens(line) {
          var entered := Fence(line, FenceChar(line), FenceLength(line), []);
          ScanOpen(lines, next, k, id, entered, outLines, blocks);
          fence := Some(entered);
        } else {
          var longer := outLines + [Plain(line)];
          ScanPlain(lines, next, k, id, outLines, blocks, longer);
          outLines := longer;
        }
      } else if Closes(line, fence.value.c, fence.value.n) {
        var block := Fenced(fence.value.header, fence.value.code, true, line);
        var longer, more := outLines + [[Tok(id)]], blocks + [block];
        ScanClose(lines, next, k, k + 1, id, fence.value, block, outLines, blocks, longer, more);
        outLines, blocks, fence, id := longer, more, None, id + 1;
      } else {
        var longer := fence.value.(code := fence.value.code + [line]);
        ScanCode(lines, next, k, id, fence.value, longer, outLines, blocks);
        fence := Some(longer);
      }
    }
    if fence.Some? {
      var block := Fenced(fence.value.header, fence.value.code, false, "");
      var longer, more := outLines + [[Tok(id)]], blocks + [block];
      ScanClose(lines, next, |lines|, |lines|, id, fence.value, block, outLines, blocks, longer, more);
      outLines, blocks, id := longer, more, id + 1;
    }
    ScanEnd(lines, next, id, outLines, blocks);
  }

  // ---- What is stored for a block ----

  /** The code lines, each ended by a newline. */
  function CodeBody(code: seq<string>): string {
    if code == [] then "" else JoinLines(code) + "\n"
  }

  /** The block as it was written; an unclosed block is given a closing fence. */
  function RawBlock(b: Fenced): string {
    b.header + "\n" + CodeBody(b.code)
    + if b.closed then b.closer else if Opens(b.header) then Repeat(FenceChar(b.header), FenceLength(b.header)) else ""
  }

  function FirstWord(s: string): string {
    if s == [] || IsSpace(s[0]) then [] else [s[0]] + FirstWord(s[1..])
  }

  /** The language named after the opening fence. */
  function Language(header: string): string {
    if Opens(header) then FirstWord(TrimSpace(Trimmed(header)[FenceLength(header)..])) else ""
  }

  /** `word` is the first of the words of s between white space, and "" if there is none. */
  ghost predicate IsFirstField(s: string, word: string) {
    && (forall i :: 0 <= i < |word| ==> !IsSpace(word[i]))
    && (word == "" ==> AllSpace(s))
    && exists l, r :: Around(s, l, word, r) && AllSpace(l) && (r == "" || IsSpace(r[0]))
  }

  lemma {:induction false} FirstWordIs(s: string) returns (r: string)
    ensures s == FirstWord(s) + r && (r == "" || IsSpace(r[0]))
    ensures forall i :: 0 <= i < |FirstWord(s)| ==> !IsSpace(FirstWord(s)[i])
  {
    r := s;
    if s != "" && !IsSpace(s[0]) {
      r := FirstWordIs(s[1..]);
    }
  }

  /** The language is the first word behind the whole run that opens the fence. */
  lemma LanguageIs(header: string, lead: nat, c: char, n: nat, rest: string)
    requires FenceLine(header, lead, c, n, rest) && IsFenceChar(c) && n >= 3 && (rest == "" || rest[0] != c)
    ensures IsFirstField(rest, Language(header))
  {
    FenceLineOpens(header, lead, c, n, rest);
    FirstFieldIs(rest);
  }

  lemma FirstFieldIs(rest: string)
    ensures IsFirstField(rest, FirstWord(TrimSpace(rest)))
  {
    TrimSpaceIs(rest);
    var t := TrimSpace(rest);
    var l, r :| AllSpace(l) && AllSpace(r) && Around(rest, l, t, r);
    var more := FirstWordIs(t);
    FieldInside(rest, l, t, r, FirstWord(t), more);
  }

  lemma FieldInside(s: string, l: string, t: string, r: string, word: string, more: string)
    requires Around(s, l, t, r) && AllSpace(l) && AllSpace(r) && (t != "" ==> !IsSpace(t[0]))
    requires t == word + more && (more == "" || IsSpace(more[0])) && forall i :: 0 <= i < |word| ==> !IsSpace(word[i])
    ensures IsFirstField(s, word)
  {
    hide IsSpace;
    assert l + (word + more) + r == l + word + (more + r);
    assert Around(s, l, word, more + r);
    if word == "" {
      assert t == more;
    }
  }

  /** The block as an escaped pre/code element. */
  function HtmlBlock(b: Fenced): Syms {
    var lang := Language(b.header);
    var attr := if lang == "" then [] else Plain(" class=\"language-") + EscapeHtml(Plain(lang)) + Plain("\"");
    Plain("<pre><code") + attr + Plain(">") + EscapeHtml(Plain(CodeBody(b.code))) + Plain("</code></pre>")
  }

  function JoinSyms(lines: seq<Syms>): Syms {
    if lines == [] then []
    else if |lines| == 1 then lines[0]
    else lines[0] + [Ch('\n')] + JoinSyms(lines[1..])
  }

  /** shieldFencedCodeBlocks: the same lines as the raw copy, HTML in the store. */
  method ShieldFencedCodeBlocks(text: string, store: Store, next: nat) returns (out: Syms, store': Store, next': nat)
    ensures var lines := SplitLines(Normalised(text));
      && next' == next + |Blocks(lines, 0)|
      && out == JoinSyms(ShieldedLines(lines, 0, next))
      && store' == AddAll(store, next, Stored(Blocks(lines, 0), b => HtmlBlock(b)))
  {
    var outLines, blocks := ScanFences(SplitLines(Normalised(text)), next);
    out := JoinSyms(outLines);
    store' := AddAll(store, next, Stored(blocks, b => HtmlBlock(b)));
    next' := next + |blocks|;
  }

  // ---- The round trip ----

  /** What a restored text gains: a newline and a fence of the opener's length, if and
      only if the text ends inside an open fence. */
  function MissingFence(lines: seq<string>, i: nat): string
    requires i <= |lines|
    decreases |lines| - i
  {
    if i == |lines| then ""
    else if !Opens(lines[i]) then MissingFence(lines, i + 1)
    else if CloseOf(lines, i) == |lines| then "\n" + Repeat(FenceChar(lines[i]), FenceLength(lines[i]))
    else MissingFence(lines, After(lines, i))
  }

  lemma {:induction false} JoinLinesConcat(a: seq<string>, b: seq<string>)
    requires a != [] && b != []
    ensures JoinLines(a + b) == JoinLines(a) + "\n" + JoinLines(b)
    decreases |a|
  {
    assert (a + b)[1..] == a[1..] + b;
    if |a| > 1 {
      JoinLinesConcat(a[1..], b);
    }
  }

  lemma PlainConcat(a: string, b: string)
    ensures Plain(a + b) == Plain(a) + Plain(b)
  {
  }

  lemma ClosedText(header: string, code: seq<string>, closer: string)
    ensures JoinLines([header] + code + [closer]) == header + "\n" + CodeBody(code) + closer
  {
    JoinLinesConcat([header] + code, [closer]);
    OpenText(header, code);
  }

  lemma OpenText(header: string, code: seq<string>)
    ensures JoinLines([header] + code) + "\n" == header + "\n" + CodeBody(code)
  {
    if code == [] {
      assert [header] + code == [header];
    } else {
      JoinLinesConcat([header], code);
    }
  }

  lemma RawBlockText(b: Fenced)
    requires Opens(b.header)
    ensures b.closed ==> RawBlock(b) == JoinLines([b.header] + b.code + [b.closer])
    ensures !b.closed ==>
      RawBlock(b) == JoinLines([b.header] + b.code) + ("\n" + Repeat(FenceChar(b.header), FenceLength(b.header)))
  {
    if b.closed {
      ClosedText(b.header, b.code, b.closer);
    } else {
      OpenText(b.header, b.code);
      Regroup(JoinLines([b.header] + b.code), "\n", Repeat(FenceChar(b.header), FenceLength(b.header)));
    }
  }

  lemma ClosedIsLines(lines: seq<string>, open: nat, k: nat)
    requires open < |lines| && Opens(lines[open]) && k == CloseOf(lines, open) && k < |lines|
    ensures RawBlock(FencedAt(lines, open)) == JoinLines(lines[open..k + 1])
  {
    var b := Fenced(lines[open], lines[open + 1..k], true, lines[k]);
    assert lines[open..k + 1] == [b.header] + b.code + [b.closer];
    RawBlockText(b);
  }

  lemma {:induction false} UnclosedIsLines(lines: seq<string>, open: nat)
    requires open < |lines| && Opens(lines[open]) && CloseOf(lines, open) == |lines|
    ensures RawBlock(FencedAt(lines, open)) == JoinLines(lines[open..]) + MissingFence(lines, open)
  {
    var b := Fenced(lines[open], lines[open + 1..], false, "");
    assert lines[open..] == [b.header] + b.code;
    assert lines[open + 1..|lines|] == lines[open + 1..];
    RawBlockText(b);
  }

  /** A block's raw text is its lines, plus the missing fence. */
  lemma {:induction false} RawBlockIsLines(lines: seq<string>, open: nat, k: nat)
    requires open < |lines| && Opens(lines[open]) && k == After(lines, open)
    ensures k < |lines| ==> RawBlock(FencedAt(lines, open)) == JoinLines(lines[open..k])
    ensures k == |lines| ==> RawBlock(FencedAt(lines, open)) == JoinLines(lines[open..k]) + MissingFence(lines, open)
  {
    assert lines[open..|lines|] == lines[open..];
    if CloseOf(lines, open) < |lines| {
      ClosedIsLines(lines, open, CloseOf(lines, open));
      if k == |lines| {
        NoneMissing(lines, open);
      }
    } else {
      UnclosedIsLines(lines, open);
    }
  }

  lemma NoneMissing(lines: seq<string>, open: nat)
    requires open < |lines| && Opens(lines[open]) && CloseOf(lines, open) + 1 == |lines|
    ensures MissingFence(lines, open) == ""
  {
    assert MissingFence(lines, |lines|) == "";
  }

  lemma JoinSymsStep(line: Syms, rest: seq<Syms>)
    ensures JoinSyms([line] + rest) == if rest == [] then line else line + [Ch('\n')] + JoinSyms(rest)
  {
    assert ([line] + rest)[1..] == rest;
  }

  lemma JoinLinesTail(lines: seq<string>, i: nat, k: nat)
    requires i < k <= |lines|
    ensures JoinLines(lines[i..]) ==
      if k == |lines| then JoinLines(lines[i..k]) else JoinLines(lines[i..k]) + "\n" + JoinLines(lines[k..])
  {
    if k == |lines| {
      assert lines[i..] == lines[i..k];
    } else {
      assert lines[i..] == lines[i..k] + lines[k..];
      JoinLinesConcat(lines[i..k], lines[k..]);
    }
  }

  lemma {:induction false} SomeLineLeft(lines: seq<string>, i: nat, next: nat)
    requires i <= |lines|
    ensures ShieldedLines(lines, i, next) == [] <==> i == |lines|
  {
  }

  /** The last shielded line stands for lines[i..]. */
  lemma LastLineRestores(lines: seq<string>, i: nat, line: Syms, more: string, store: Store)
    requires i < |lines| && Ordered(store) && Expand(line, store) == Plain(JoinLines(lines[i..]) + more)
    ensures Expand(JoinSyms([line] + []), store) == Plain(JoinLines(lines[i..]) + more)
  {
    JoinSymsStep(line, []);
  }

  /** A shielded line that stands for lines[i..k], then the rest. */
  lemma LineRestores(lines: seq<string>, i: nat, k: nat, line: Syms, rest: seq<Syms>, more: string, store: Store)
    requires i < k < |lines| && Ordered(store) && rest != []
    requires Expand(line, store) == Plain(JoinLines(lines[i..k]))
    requires Expand(JoinSyms(rest), store) == Plain(JoinLines(lines[k..]) + more)
    ensures Expand(JoinSyms([line] + rest), store) == Plain(JoinLines(lines[i..]) + more)
  {
    JoinSymsStep(line, rest);
    JoinLinesTail(lines, i, k);
    ThreeExpand(line, JoinSyms(rest), store);
    ThreePlain(JoinLines(lines[i..k]), JoinLines(lines[k..]), more);
  }

  lemma ThreeExpand(a: Syms, b: Syms, store: Store)
    requires Ordered(store)
    ensures Expand(a + [Ch('\n')] + b, store) == Expand(a, store) + [Ch('\n')] + Expand(b, store)
  {
    ExpandConcat(a + [Ch('\n')], b, store);
    ExpandConcat(a, [Ch('\n')], store);
    ExpandOne(Ch('\n'), store);
  }

  lemma ThreePlain(a: string, b: string, more: string)
    ensures Plain(a) + [Ch('\n')] + Plain(b + more) == Plain(a + "\n" + b + more)
  {
    PlainConcat(a, "\n");
    PlainConcat(a + "\n", b + more);
    assert a + "\n" + (b + more) == a + "\n" + b + more;
    assert Plain("\n") == [Ch('\n')];
  }

  /** A shielded line that stands for lines[i..k], then what is left. */
  lemma LinesRestore(lines: seq<string>, i: nat, k: nat, line: Syms, rest: seq<Syms>, more: string, store: Store)
    requires i < k <= |lines| && Ordered(store) && (rest == [] <==> k == |lines|)
    requires Expand(line, store) == Plain(JoinLines(lines[i..k]) + if k == |lines| then more else "")
    requires k < |lines| ==> Expand(JoinSyms(rest), store) == Plain(JoinLines(lines[k..]) + more)
    ensures Expand(JoinSyms([line] + rest), store) == Plain(JoinLines(lines[i..]) + more)
  {
    if k == |lines| {
      assert lines[i..k] == lines[i..];
      LastLineRestores(lines, i, line, more, store);
    } else {
      assert JoinLines(lines[i..k]) + "" == JoinLines(lines[i..k]);
      LineRestores(lines, i, k, line, rest, more, store);
    }
  }

  lemma NothingRestores(lines: seq<string>, next: nat, store: Store)
    requires Ordered(store)
    ensures Expand(JoinSyms(ShieldedLines(lines, |lines|, next)), store)
            == Plain(JoinLines(lines[|lines|..]) + MissingFence(lines, |lines|))
  {
    assert Plain("" + "") == [];
  }

  lemma OtherLineRestores(lines: seq<string>, i: nat, store: Store)
    requires i < |lines| && Ordered(store)
    ensures Expand(Plain(lines[i]), store) == Plain(JoinLines(lines[i..i + 1]))
    ensures Plain(JoinLines(lines[i..i + 1]) + "") == Plain(JoinLines(lines[i..i + 1]))
  {
    ExpandPlain(lines[i], store);
    assert lines[i..i + 1] == [lines[i]];
    assert lines[i] + "" == lines[i];
  }

  /** Expanding the shielded lines gives back the lines, plus the missing fence. */
  lemma {:induction false} FencesRestore(lines: seq<string>, i: nat, next: nat, store: Store)
    requires i <= |lines| && Ordered(store)
    requires HoldsAt(store, next, Stored(Blocks(lines, i), b => Plain(RawBlock(b))))
    ensures Expand(JoinSyms(ShieldedLines(lines, i, next)), store)
            == Plain(JoinLines(lines[i..]) + MissingFence(lines, i))
    decreases |lines| - i
  {
    hide Expand;
    hide RawBlock;
    hide JoinLines;
    hide JoinSyms;
    hide Plain;
    hide After;
    hide HoldsAt;
    hide Opens;
    if i == |lines| {
      NothingRestores(lines, next, store);
    } else if Opens(lines[i]) {
      var k := After(lines, i);
      BlockRestores(lines, i, k, next, store);
      FencesRestore(lines, k, next + 1, store);
      SomeLineLeft(lines, k, next + 1);
      assert k < |lines| ==> JoinLines(lines[i..k]) + "" == JoinLines(lines[i..k]);
      LinesRestore(lines, i, k, [Tok(next)], ShieldedLines(lines, k, next + 1), MissingFence(lines, i), store);
    } else {
      OtherLineRestores(lines, i, store);
      FencesRestore(lines, i + 1, next, store);
      SomeLineLeft(lines, i + 1, next);
      assert i + 1 == |lines| ==> MissingFence(lines, i) == "";
      LinesRestore(lines, i, i + 1, Plain(lines[i]), ShieldedLines(lines, i + 1, next), MissingFence(lines, i), store);
    }
  }

  lemma BlockRestores(lines: seq<string>, i: nat, k: nat, next: nat, store: Store)
    requires i < |lines| && Opens(lines[i]) && k == After(lines, i) && Ordered(store)
    requires HoldsAt(store, next, Stored(Blocks(lines, i), b => Plain(RawBlock(b))))
    ensures HoldsAt(store, next + 1, Stored(Blocks(lines, k), b => Plain(RawBlock(b))))
    ensures k < |lines| ==> Expand([Tok(next)], store) == Plain(JoinLines(lines[i..k]))
    ensures k == |lines| ==> Expand([Tok(next)], store) == Plain(JoinLines(lines[i..k]) + MissingFence(lines, i))
    ensures k < |lines| ==> MissingFence(lines, i) == MissingFence(lines, k)
  {
    FirstHolds(Blocks(lines, i), next, store, FencedAt(lines, i), Blocks(lines, k));
    RawBlockIsLines(lines, i, k);
    ExpandOne(Tok(next), store);
    ExpandPlain(RawBlock(FencedAt(lines, i)), store);
  }

  lemma FirstHolds(blocks: seq<Fenced>, next: nat, store: Store, first: Fenced, rest: seq<Fenced>)
    requires blocks == [first] + rest && HoldsAt(store, next, Stored(blocks, b => Plain(RawBlock(b))))
    ensures next in store && store[next] == Plain(RawBlock(first))
    ensures HoldsAt(store, next + 1, Stored(rest, b => Plain(RawBlock(b))))
  {
    assert blocks[1..] == rest;
    HoldsCons(store, next, Plain(RawBlock(first)), Stored(rest, b => Plain(RawBlock(b))));
  }

  lemma HoldsCons(store: Store, next: nat, first: Syms, rest: seq<Syms>)
    requires HoldsAt(store, next, [first] + rest)
    ensures next in store && store[next] == first && HoldsAt(store, next + 1, rest)
  {
    var all := [first] + rest;
    assert all[0] == first;
    forall id: nat | next + 1 <= id < next + 1 + |rest| ensures id in store && store[id] == rest[id - next - 1] {
      assert all[id - next] == rest[id - next - 1];
    }
  }

  // ---- Both shields, and back ----

  lemma {:induction false} ShieldedEarlier(lines: seq<string>, i: nat, next: nat)
    requires i <= |lines|
    ensures EarlierOnly(JoinSyms(ShieldedLines(lines, i, next)), next + |Blocks(lines, i)|)
    decreases |lines| - i
  {
    if i < |lines| {
      if Opens(lines[i]) {
        ShieldedEarlier(lines, After(lines, i), next + 1);
        JoinSymsStep([Tok(next)], ShieldedLines(lines, After(lines, i), next + 1));
      } else {
        ShieldedEarlier(lines, i + 1, next);
        JoinSymsStep(Plain(lines[i]), ShieldedLines(lines, i + 1, next));
      }
    }
  }

  ghost predicate FenceStore(lines: seq<string>, store: Store) {
    && Ordered(store) && Below(store, |Blocks(lines, 0)|)
    && HoldsAt(store, 0, Stored(Blocks(lines, 0), b => Plain(RawBlock(b))))
  }

  lemma FenceStoreMade(lines: seq<string>, store: Store)
    requires store == AddAll(map[], 0, Stored(Blocks(lines, 0), b => Plain(RawBlock(b))))
    ensures FenceStore(lines, store)
  {
    StoredEarlier(Blocks(lines, 0), b => Plain(RawBlock(b)), 0);
    AddAllOrdered(map[], 0, Stored(Blocks(lines, 0), b => Plain(RawBlock(b))));
  }

  lemma SpanStoreMade(lines: seq<string>, fenced: Syms, spans: seq<CodeSpans.Span>, store1: Store, store: Store)
    requires FenceStore(lines, store1) && fenced == JoinSyms(ShieldedLines(lines, 0, 0))
    requires store == AddAll(store1, |Blocks(lines, 0)|, CodeSpans.Contents(spans, CodeSpans.RawOf(fenced)))
    ensures Ordered(store) && SameBelow(store1, store, |Blocks(lines, 0)|)
    ensures HoldsAt(store, |Blocks(lines, 0)|, CodeSpans.Contents(spans, CodeSpans.RawOf(fenced)))
  {
    var n := |Blocks(lines, 0)|;
    ShieldedEarlier(lines, 0, 0);
    forall sp ensures EarlierOnly(CodeSpans.RawSpan(fenced, sp), n) {
      CodeSpans.RawSpanEarlier(fenced, sp, n);
    }
    CodeSpans.ContentsEarlier(spans, CodeSpans.RawOf(fenced), n);
    AddAllOrdered(store1, n, CodeSpans.Contents(spans, CodeSpans.RawOf(fenced)));
  }

  lemma BothRestore(lines: seq<string>, fenced: Syms, spans: seq<CodeSpans.Span>, out: Syms, store1: Store,
                    store: Store)
    requires FenceStore(lines, store1) && fenced == JoinSyms(ShieldedLines(lines, 0, 0))
    requires CodeSpans.Emitted(fenced, spans, |fenced|, |Blocks(lines, 0)|, out)
    requires store == AddAll(store1, |Blocks(lines, 0)|, CodeSpans.Contents(spans, CodeSpans.RawOf(fenced)))
    ensures Ordered(store) && Expand(out, store) == Plain(JoinLines(lines) + MissingFence(lines, 0))
  {
    SpanStoreMade(lines, fenced, spans, store1, store);
    CodeSpans.SpansRestore(fenced, spans, |fenced|, |Blocks(lines, 0)|, store);
    assert fenced[..|fenced|] == fenced;
    ShieldedEarlier(lines, 0, 0);
    ExpandLocal(fenced, |Blocks(lines, 0)|, store1, store);
    FencesRestore(lines, 0, 0, store1);
    assert lines[0..] == lines;
  }

  lemma BothShieldsRestore(lines: seq<string>, fenced: Syms, contents: seq<Syms>, out: Syms, store1: Store,
                           store: Store)
    requires FenceStore(lines, store1) && fenced == JoinSyms(ShieldedLines(lines, 0, 0))
    requires CodeSpans.Shields(fenced, |Blocks(lines, 0)|, CodeSpans.RawOf(fenced), out, contents)
    requires store == AddAll(store1, |Blocks(lines, 0)|, contents)
    ensures Ordered(store) && Expand(out, store) == Plain(JoinLines(lines) + MissingFence(lines, 0))
  {
    var spans :| CodeSpans.IsSpanList(fenced, 0, spans)
                 && CodeSpans.Holds(fenced, |Blocks(lines, 0)|, CodeSpans.RawOf(fenced), out, contents, spans);
    BothRestore(lines, fenced, spans, out, store1, store);
  }

  /** Main result: what shieldMarkdownCodeBlocksRaw takes out expands to the
      newline-normalised text, plus a newline and the opener's fence if and only if the
      text ends inside an open fence. */
  method ShieldMarkdownCodeBlocksRaw(text: string) returns (out: Syms, store: Store)
    ensures Ordered(store)
    ensures Expand(out, store) == Plain(Normalised(text) + MissingFence(SplitLines(Normalised(text)), 0))
  {
    var lines := SplitLines(Normalised(text));
    var outLines, blocks := ScanFences(lines, 0);
    var fenced := JoinSyms(outLines);
    var store1 := AddAll(map[], 0, Stored(blocks, b => Plain(RawBlock(b))));
    FenceStoreMade(lines, store1);
    out, store := CodeSpans.ShieldSpansRaw(fenced, store1, |blocks|);
    ghost var contents :| CodeSpans.Shields(fenced, |blocks|, CodeSpans.RawOf(fenced), out, contents)
                          && store == AddAll(store1, |blocks|, contents);
    BothShieldsRestore(lines, fenced, contents, out, store1, store);
    JoinOfSplit(Normalised(text));
  }

  /** Main result: shieldMarkdownCode then restoreMarkdownCode, for every order in which
      the placeholder map may be walked. */
  method ShieldAndRestore(text: string) returns (restored: Syms)
    ensures restored == Plain(Normalised(text) + MissingFence(SplitLines(Normalised(text)), 0))
  {
    var out, store := ShieldMarkdownCodeBlocksRaw(text);
    restored := Restore(out, store);
  }

  /** The text ends inside a fence: some block found by the loop was never closed. */
  predicate EndsInFence(lines: seq<string>) {
    exists b <- Blocks(lines, 0) :: !b.closed
  }

  lemma {:induction false} NothingMissingIff(lines: seq<string>, i: nat)
    requires i <= |lines|
    ensures MissingFence(lines, i) == "" <==> forall b <- Blocks(lines, i) :: b.closed
    decreases |lines| - i
  {
    if i < |lines| {
      if Opens(lines[i]) {
        NothingMissingIff(lines, After(lines, i));
        assert forall b <- Blocks(lines, i) :: b == FencedAt(lines, i) || b in Blocks(lines, After(lines, i));
        assert Blocks(lines, i)[0] == FencedAt(lines, i);
        assert forall b <- Blocks(lines, After(lines, i)) :: b in Blocks(lines, i);
      } else {
        NothingMissingIff(lines, i + 1);
      }
    }
  }

  /** The round trip gives back exactly the normalised text if and only if every fence is
      closed. */
  lemma ExactIffClosed(text: string)
    ensures var lines := SplitLines(Normalised(text));
      Plain(Normalised(text) + MissingFence(lines, 0)) == Plain(Normalised(text)) <==> !EndsInFence(lines)
  {
    var lines := SplitLines(Normalised(text));
    NothingMissingIff(lines, 0);
    var gained := MissingFence(lines, 0);
    assert |Plain(Normalised(text) + gained)| == |Normalised(text)| + |gained|;
    if gained == "" {
      assert Normalised(text) + gained == Normalised(text);
    }
  }

  // ---- The HTML path ----

  lemma HtmlBlockEarlier(b: Fenced, n: nat)
    ensures EarlierOnly(HtmlBlock(b), n)
  {
    hide Language;
    hide CodeBody;
    hide EscapeHtml;
    EscapeKeepsTokens(Plain(Language(b.header)), n);
    EscapeKeepsTokens(Plain(CodeBody(b.code)), n);
  }

  lemma HtmlFencesOrdered(lines: seq<string>, store: Store)
    requires store == AddAll(map[], 0, Stored(Blocks(lines, 0), b => HtmlBlock(b)))
    ensures Ordered(store) && Below(store, |Blocks(lines, 0)|)
  {
    forall b ensures EarlierOnly(HtmlBlock(b), 0) {
      HtmlBlockEarlier(b, 0);
    }
    StoredEarlier(Blocks(lines, 0), b => HtmlBlock(b), 0);
    AddAllOrdered(map[], 0, Stored(Blocks(lines, 0), b => HtmlBlock(b)));
  }

  /** Replacing the spans of s by tokens keeps the store ordered. */
  lemma HtmlSpansOrdered(s: Syms, store: Store, n: nat, out: Syms, contents: seq<Syms>, store': Store, n': nat)
    requires Ordered(store) && Below(store, n) && EarlierOnly(s, n)
    requires CodeSpans.Shields(s, n, CodeSpans.HtmlOf(s), out, contents)
    requires store' == AddAll(store, n, contents) && n' == n + |contents|
    ensures Ordered(store') && Below(store', n') && EarlierOnly(out, n')
  {
    var spans :| CodeSpans.IsSpanList(s, 0, spans) && CodeSpans.Holds(s, n, CodeSpans.HtmlOf(s), out, contents, spans);
    forall sp ensures EarlierOnly(CodeSpans.HtmlOf(s)(sp), n) {
      CodeSpans.CodeHtmlEarlier(s, sp, n);
    }
    CodeSpans.ContentsEarlier(spans, CodeSpans.HtmlOf(s), n);
    AddAllOrdered(store, n, contents);
    CodeSpans.ShieldedEarlier(s, spans, |s|, n);
  }

  /** The draft after the two shields: the blocks of the text are tokens 0, 1, ... for their
      elements, and the spans of what is left are the tokens after them for theirs. */
  ghost predicate ShieldedHtml(text: string, draft: Draft) {
    var lines := SplitLines(Normalised(text));
    exists contents :: HtmlShields(lines, Blocks(lines, 0), JoinSyms(ShieldedLines(lines, 0, 0)), contents, draft)
  }

  ghost predicate HtmlShields(lines: seq<string>, blocks: seq<Fenced>, fenced: Syms, contents: seq<Syms>, draft: Draft)
  {
    && CodeSpans.Shields(fenced, |blocks|, CodeSpans.HtmlOf(fenced), draft.text, contents)
    && draft.store == AddAll(AddAll(map[], 0, Stored(blocks, b => HtmlBlock(b))), |blocks|, contents)
    && draft.next == |blocks| + |contents|
  }

  lemma {:induction false} StoredAt(blocks: seq<Fenced>, content: Fenced -> Syms, i: nat)
    requires i < |blocks|
    ensures |Stored(blocks, content)| == |blocks| && Stored(blocks, content)[i] == content(blocks[i])
  {
    if i > 0 {
      StoredAt(blocks[1..], content, i - 1);
    } else {
      StoredLength(blocks, content);
    }
  }

  lemma {:induction false} StoredLength(blocks: seq<Fenced>, content: Fenced -> Syms)
    ensures |Stored(blocks, content)| == |blocks|
  {
    if blocks != [] {
      StoredLength(blocks[1..], content);
    }
  }

  /** Each fenced block of the text is in the store as its element, and expands to it. */
  lemma BlockIsStored(text: string, draft: Draft, id: nat)
    requires ShieldedHtml(text, draft) && Sheltered(draft) && id < |Blocks(SplitLines(Normalised(text)), 0)|
    ensures id in draft.store && draft.store[id] == HtmlBlock(Blocks(SplitLines(Normalised(text)), 0)[id])
    ensures Expand(draft.store[id], draft.store) == draft.store[id]
  {
    hide HtmlBlock, Expand;
    var lines := SplitLines(Normalised(text));
    var blocks, fenced := Blocks(lines, 0), JoinSyms(ShieldedLines(lines, 0, 0));
    var contents :| HtmlShields(lines, blocks, fenced, contents, draft);
    var store := AddAll(map[], 0, Stored(blocks, b => HtmlBlock(b)));
    StoredAt(blocks, b => HtmlBlock(b), id);
    HtmlFencesOrdered(lines, store);
    HtmlFencesHold(lines, store);
    AddAllKeeps(store, |blocks|, contents, id);
    HtmlBlockEarlier(blocks[id], 0);
    ExpandOfNormal(draft.store[id], draft.store);
  }

  lemma HtmlFencesHold(lines: seq<string>, store: Store)
    requires store == AddAll(map[], 0, Stored(Blocks(lines, 0), b => HtmlBlock(b)))
    ensures HoldsAt(store, 0, Stored(Blocks(lines, 0), b => HtmlBlock(b)))
  {
    forall b ensures EarlierOnly(HtmlBlock(b), 0) {
      HtmlBlockEarlier(b, 0);
    }
    StoredEarlier(Blocks(lines, 0), b => HtmlBlock(b), 0);
    AddAllOrdered(map[], 0, Stored(Blocks(lines, 0), b => HtmlBlock(b)));
  }

  lemma {:induction false} AddAllKeeps(store: Store, next: nat, contents: seq<Syms>, id: nat)
    requires id in store && id < next
    ensures id in AddAll(store, next, contents) && AddAll(store, next, contents)[id] == store[id]
    decreases |contents|
  {
    if contents != [] {
      AddAllKeeps(store, next, contents[..|contents| - 1], id);
    }
  }

  /** The two shields of MarkdownToTelegramHTML. Main result: whatever the text, exactly its code
      is shielded, the store is ordered and the shielded text holds only its tokens. */
  method ShieldForHtml(text: string) returns (draft: Draft)
    ensures ShieldedHtml(text, draft)
    ensures Sheltered(draft)
  {
    hide HtmlBlock, Opens, CodeSpans.Shields, Normalised, SplitLines;
    var fenced, store1, next := ShieldFencedCodeBlocks(text, map[], 0);
    ghost var lines := SplitLines(Normalised(text));
    HtmlFencesOrdered(lines, store1);
    ShieldedEarlier(lines, 0, 0);
    var out, store, end := CodeSpans.ShieldInlineCodeSpans(fenced, store1, next);
    ghost var contents :| CodeSpans.Shields(fenced, next, CodeSpans.HtmlOf(fenced), out, contents)
                          && store == AddAll(store1, next, contents) && end == next + |contents|;
    HtmlSpansOrdered(fenced, store1, next, out, contents, store, end);
    draft := Draft(out, store, end);
    assert HtmlShields(lines, Blocks(lines, 0), fenced, contents, draft);
  }

  lemma CodeStaysSheltered(draft: Draft, passes: seq<Draft -> Step>)
    requires Sheltered(draft) && forall i :: 0 <= i < |passes| ==> Tame(passes[i])
    ensures Sheltered(Passed(draft, passes))
    ensures forall id :: id in draft.store ==>
      Expand([Tok(id)], Passed(draft, passes).store) == Expand(draft.store[id], draft.store)
  {
    PassesKeepShelter(draft, passes);
    forall id | id in draft.store
      ensures Expand([Tok(id)], Passed(draft, passes).store) == Expand(draft.store[id], draft.store)
    {
      assert EarlierOnly([Tok(id)], draft.next);
      ExpandOne(Tok(id), draft.store);
    }
  }

  /** MarkdownToTelegramHTML up to the sanitiser; the passes between the shields and the
      restore loop are parameters. Main result: for every order in which the map is walked
      the loop ends with the full expansion and no token left, and every shielded piece of
      code expands to what was stored for it. */
  method ConvertToHtml(text: string, passes: seq<Draft -> Step>) returns (draft: Draft, restored: Syms)
    requires forall i :: 0 <= i < |passes| ==> Tame(passes[i])
    ensures ShieldedHtml(text, draft) && Sheltered(draft)
    ensures Ordered(Passed(draft, passes).store)
    ensures restored == Expand(Passed(draft, passes).text, Passed(draft, passes).store)
    ensures NoneLeft(restored, Passed(draft, passes).store)
    ensures forall id :: id in draft.store ==>
      Expand([Tok(id)], Passed(draft, passes).store) == Expand(draft.store[id], draft.store)
  {
    hide ShieldedHtml, Expand;
    draft := ShieldForHtml(text);
    var now := draft;
    for k := 0 to |passes|
      invariant now == Passed(draft, passes[..k])
    {
      assert passes[..k + 1][..k] == passes[..k];
      var step := passes[k](now);
      match step {
        case Create(content) => now := Draft(now.text, now.store[now.next := content], now.next + 1);
        case Rewrite(rewritten) => now := Draft(rewritten, now.store, now.next);
      }
    }
    assert passes[..|passes|] == passes;
    CodeStaysSheltered(draft, passes);
    restored := Restore(now.text, now.store);
  }
}
