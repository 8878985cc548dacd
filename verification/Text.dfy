/** Text primitives shared by the Markdown and HTML modules. A string is a
    sequence of Unicode scalar values, one per Go rune. */
module Text {

  /** unicode.IsSpace, the class of characters strings.TrimSpace removes. */
  predicate IsSpace(c: char) {
    var n := c as int;
    9 <= n <= 13 || n == 32 || n == 0x85 || n == 0xA0 || n == 0x1680 || 0x2000 <= n <= 0x200A
    || n == 0x2028 || n == 0x2029 || n == 0x202F || n == 0x205F || n == 0x3000
  }

  function LowerChar(c: char): char {
    if 'A' <= c <= 'Z' then (c as int + 32) as char else c
  }

  /** Lower-casing of ASCII letters. */
  function Lower(s: string): string {
    seq(|s|, i requires 0 <= i < |s| => LowerChar(s[i]))
  }

  /** strings.TrimSpace. */
  function TrimSpace(s: string): string {
    TrimRight(TrimLeft(s))
  }

  function TrimLeft(s: string): string {
    if s != [] && IsSpace(s[0]) then TrimLeft(s[1..]) else s
  }

  function TrimRight(s: string): string {
    if s != [] && IsSpace(s[|s| - 1]) then TrimRight(s[..|s| - 1]) else s
  }

  predicate AllSpace(s: string) {
    forall i :: 0 <= i < |s| ==> IsSpace(s[i])
  }

  /** `core` is s without the white space around it. */
  ghost predicate IsTrimmed(s: string, core: string) {
    && (exists l, r :: AllSpace(l) && AllSpace(r) && Around(s, l, core, r))
    && (core != "" ==> !IsSpace(core[0]) && !IsSpace(core[|core| - 1]))
  }

  predicate Around(s: string, l: string, core: string, r: string) {
    s == l + core + r
  }

  lemma {:induction false} TrimLeftIs(s: string) returns (l: string)
    ensures AllSpace(l) && s == l + TrimLeft(s) && (TrimLeft(s) != "" ==> !IsSpace(TrimLeft(s)[0]))
  {
    l := "";
    if s != "" && IsSpace(s[0]) {
      var more := TrimLeftIs(s[1..]);
      l := [s[0]] + more;
    }
  }

  lemma {:induction false} TrimRightIs(s: string) returns (r: string)
    ensures AllSpace(r) && s == TrimRight(s) + r
    ensures TrimRight(s) != "" ==> TrimRight(s)[0] == s[0] && !IsSpace(TrimRight(s)[|TrimRight(s)| - 1])
  {
    r := "";
    if s != "" && IsSpace(s[|s| - 1]) {
      var more := TrimRightIs(s[..|s| - 1]);
      r := more + [s[|s| - 1]];
    }
  }

  lemma TrimSpaceIs(s: string)
    ensures IsTrimmed(s, TrimSpace(s))
  {
    var l := TrimLeftIs(s);
    var r := TrimRightIs(TrimLeft(s));
    assert Around(s, l, TrimSpace(s), r);
  }

  lemma TrimmedAwayIff(s: string)
    ensures TrimSpace(s) == "" <==> AllSpace(s)
  {
    TrimSpaceIs(s);
    var core := TrimSpace(s);
    var l, r :| AllSpace(l) && AllSpace(r) && Around(s, l, core, r);
    if core == "" {
      assert forall i :: 0 <= i < |s| ==> s[i] == if i < |l| then l[i] else r[i - |l|];
    } else {
      assert s[|l|] == core[0];
    }
  }

  /** The k-th capital becomes the k-th small letter and nothing else changes. */
  lemma LowerIs(s: string, i: nat)
    requires i < |s|
    ensures |Lower(s)| == |s|
    ensures 'A' <= s[i] <= 'Z' ==> 'a' <= Lower(s)[i] && Lower(s)[i] - 'a' == s[i] - 'A'
    ensures !('A' <= s[i] <= 'Z') ==> Lower(s)[i] == s[i]
  {
  }

  /** UTF-16 code units of one character: two for a surrogate pair. */
  function Units(c: char): nat {
    if c as int > 0xFFFF then 2 else 1
  }

  function Utf16Len(s: string): nat {
    if s == [] then 0 else Units(s[0]) + Utf16Len(s[1..])
  }

  /** The UTF-16 encoding of section 2.1 of RFC 2781. */
  function Utf16(s: string): seq<nat> {
    if s == [] then []
    else
      var n := s[0] as int;
      (if n < 0x10000 then [n] else [0xD800 + (n - 0x10000) / 0x400, 0xDC00 + (n - 0x10000) % 0x400]) + Utf16(s[1..])
  }

  lemma {:induction false} Utf16LenIsEncoded(s: string)
    ensures Utf16Len(s) == |Utf16(s)|
    ensures forall i :: 0 <= i < |Utf16(s)| ==> Utf16(s)[i] < 0x10000
  {
    if s != [] {
      Utf16LenIsEncoded(s[1..]);
    }
  }

  lemma {:induction false} Utf16LenConcat(a: string, b: string)
    ensures Utf16Len(a + b) == Utf16Len(a) + Utf16Len(b)
  {
    if a == [] {
      assert a + b == b;
    } else {
      assert (a + b)[1..] == a[1..] + b;
      Utf16LenConcat(a[1..], b);
    }
  }

  lemma {:induction false} Utf16LenBounds(s: string)
    ensures |s| <= Utf16Len(s) <= 2 * |s|
  {
    if s != [] {
      Utf16LenBounds(s[1..]);
    }
  }

  /** The part before the first c. */
  function UpTo(s: string, c: char): string {
    if s == [] || s[0] == c then [] else [s[0]] + UpTo(s[1..], c)
  }

  lemma {:induction false} UpToFirst(a: string, c: char, rest: string)
    ensures UpTo(a + [c] + rest, c) == a <==> c !in a
    ensures |UpTo(a + [c] + rest, c)| <= |a|
  {
    if a == [] {
      assert a + [c] + rest == [c] + rest;
    } else {
      UpToFirst(a[1..], c, rest);
      assert (a + [c] + rest)[1..] == a[1..] + [c] + rest;
      assert c in a <==> a[0] == c || c in a[1..];
      assert a == [a[0]] + a[1..];
    }
  }
}
