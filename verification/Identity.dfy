/** Account ids derived from e-mail addresses, and the suffix counter that makes them
    unique (account_pool.go). */
module Identity {
  import opened Text

  predicate SlugChar(c: char) {
    'a' <= c <= 'z' || '0' <= c <= '9' || c == '-' || c == '_' || c == '.'
  }

  function Keep(s: string): string {
    if s == [] then [] else (if SlugChar(s[0]) then [s[0]] else []) + Keep(s[1..])
  }

  /** strings.Trim(s, ".-_"). */
  function TrimMarks(s: string): string {
    if s == [] then []
    else if s[0] in ".-_" then TrimMarks(s[1..])
    else if s[|s| - 1] in ".-_" then TrimMarks(s[..|s| - 1])
    else s
  }

  /** DeriveAccountIDFromEmail. */
  function Slug(email: string): string {
    var slug := TrimMarks(Keep(Lower(TrimSpace(UpTo(email, '@')))));
    var short := if |slug| > 32 then slug[..32] else slug;
    if short == "" then "account" else short
  }

  /** strings.EqualFold on ASCII letters. */
  predicate SameEmail(a: string, b: string) {
    Lower(a) == Lower(b)
  }

  // ---- What id an e-mail gets ----

  predicate Mark(c: char) {
    c == '.' || c == '-' || c == '_'
  }

  lemma {:induction false} KeepIs(s: string)
    ensures forall i :: 0 <= i < |Keep(s)| ==> SlugChar(Keep(s)[i])
    ensures (forall i :: 0 <= i < |s| ==> SlugChar(s[i])) ==> Keep(s) == s
  {
    if s != "" {
      KeepIs(s[1..]);
    }
  }

  lemma KeepFirst(c: char, s: string)
    ensures Keep([c] + s) == (if SlugChar(c) then [c] else []) + Keep(s)
  {
    assert ([c] + s)[1..] == s;
  }

  lemma {:induction false} KeepConcat(a: string, b: string)
    ensures Keep(a + b) == Keep(a) + Keep(b)
  {
    if a == "" {
      assert a + b == b;
    } else {
      var c, rest := a[0], a[1..];
      KeepConcat(rest, b);
      assert a == [c] + rest && a + b == [c] + (rest + b);
      KeepFirst(c, rest);
      KeepFirst(c, rest + b);
      hide Keep, SlugChar;
      var one := if SlugChar(c) then [c] else [];
      assert one + (Keep(rest) + Keep(b)) == one + Keep(rest) + Keep(b);
    }
  }

  lemma MarkIff(c: char)
    ensures Mark(c) <==> c in ".-_"
  {
  }

  predicate AllMarks(s: string) {
    forall i :: 0 <= i < |s| ==> Mark(s[i])
  }

  /** s is `core` between marks. */
  predicate Within(s: string, l: string, core: string, r: string) {
    s == l + core + r && AllMarks(l) && AllMarks(r)
  }

  lemma MarkBefore(c: char, s: string, l: string, core: string, r: string)
    requires Within(s, l, core, r) && Mark(c)
    ensures Within([c] + s, [c] + l, core, r)
  {
  }

  lemma MarkAfter(c: char, s: string, l: string, core: string, r: string)
    requires Within(s, l, core, r) && Mark(c)
    ensures Within(s + [c], l, core, r + [c])
  {
  }

  lemma TrimMarksStep(s: string)
    ensures TrimMarks("") == ""
    ensures s != "" && Mark(s[0]) ==> TrimMarks(s) == TrimMarks(s[1..])
    ensures s != "" && !Mark(s[0]) && Mark(s[|s| - 1]) ==> TrimMarks(s) == TrimMarks(s[..|s| - 1])
    ensures s != "" && !Mark(s[0]) && !Mark(s[|s| - 1]) ==> TrimMarks(s) == s
  {
    if s != "" {
      MarkIff(s[0]);
      MarkIff(s[|s| - 1]);
    }
  }

  lemma {:induction false} TrimMarksIs(s: string) returns (l: string, r: string)
    ensures Within(s, l, TrimMarks(s), r)
    ensures TrimMarks(s) != "" ==> !Mark(TrimMarks(s)[0]) && !Mark(TrimMarks(s)[|TrimMarks(s)| - 1])
    decreases |s|
  {
    TrimMarksStep(s);
    hide TrimMarks, Mark;
    l, r := "", "";
    if s == "" {
      return;
    }
    var n := |s| - 1;
    if Mark(s[0]) {
      l, r := TrimMarksIs(s[1..]);
      hide Within;
      MarkBefore(s[0], s[1..], l, TrimMarks(s[1..]), r);
      assert s == [s[0]] + s[1..];
      l := [s[0]] + l;
    } else if Mark(s[n]) {
      l, r := TrimMarksIs(s[..n]);
      hide Within;
      MarkAfter(s[n], s[..n], l, TrimMarks(s[..n]), r);
      assert s == s[..n] + [s[n]];
      r := r + [s[n]];
    }
  }

  /** Main result: an id is never empty, has at most 32 characters, all of them safe in a path, and
      does not begin with a mark. */
  lemma SlugShape(email: string)
    ensures 1 <= |Slug(email)| <= 32
    ensures forall i :: 0 <= i < |Slug(email)| ==> SlugChar(Slug(email)[i])
    ensures !Mark(Slug(email)[0])
  {
    hide Lower, TrimSpace, UpTo;
    var kept := Keep(Lower(TrimSpace(UpTo(email, '@'))));
    KeepIs(Lower(TrimSpace(UpTo(email, '@'))));
    hide Keep;
    var l, r := TrimMarksIs(kept);
    var slug := TrimMarks(kept);
    assert forall i :: 0 <= i < |slug| ==> slug[i] == kept[|l| + i];
  }

  lemma {:induction false} LowerUpTo(s: string)
    ensures UpTo(Lower(s), '@') == Lower(UpTo(s, '@'))
  {
    if s != "" && s[0] != '@' {
      assert Lower(s)[1..] == Lower(s[1..]);
      LowerUpTo(s[1..]);
      assert UpTo(s, '@')[1..] == UpTo(s[1..], '@');
    }
  }

  lemma {:induction false} LowerTrimLeft(s: string)
    ensures TrimLeft(Lower(s)) == Lower(TrimLeft(s))
  {
    if s != "" && IsSpace(s[0]) {
      assert Lower(s)[1..] == Lower(s[1..]);
      LowerTrimLeft(s[1..]);
    }
  }

  lemma {:induction false} LowerTrimRight(s: string)
    ensures TrimRight(Lower(s)) == Lower(TrimRight(s))
  {
    if s != "" && IsSpace(s[|s| - 1]) {
      assert Lower(s)[..|s| - 1] == Lower(s[..|s| - 1]);
      LowerTrimRight(s[..|s| - 1]);
    }
  }

  lemma LowerTwice(s: string)
    ensures Lower(Lower(s)) == Lower(s)
  {
  }

  /** Main result: addresses that differ only in case get the same id. */
  lemma SameEmailSameSlug(a: string, b: string)
    requires SameEmail(a, b)
    ensures Slug(a) == Slug(b)
  {
    SlugOfLower(a);
    SlugOfLower(b);
  }

  lemma SlugOfLower(email: string)
    ensures Slug(Lower(email)) == Slug(email)
  {
    var local := UpTo(email, '@');
    LowerUpTo(email);
    LowerTrimLeft(local);
    LowerTrimRight(TrimLeft(local));
    LowerTwice(TrimSpace(local));
  }

  /** A text that is an id already. */
  predicate PlainSlug(s: string) {
    1 <= |s| <= 32 && !Mark(s[0]) && !Mark(s[|s| - 1]) && forall i :: 0 <= i < |s| ==> SlugChar(s[i])
  }

  lemma SlugCharIs(c: char)
    requires SlugChar(c)
    ensures c != '@' && !IsSpace(c) && LowerChar(c) == c
  {
  }

  lemma PlainStays(s: string)
    requires PlainSlug(s)
    ensures '@' !in s && TrimSpace(s) == s && Lower(s) == s && Keep(s) == s && TrimMarks(s) == s
  {
    KeepIs(s);
    hide Keep;
    forall i | 0 <= i < |s| ensures s[i] != '@' && !IsSpace(s[i]) && LowerChar(s[i]) == s[i] {
      SlugCharIs(s[i]);
    }
    hide SlugChar, IsSpace, LowerChar;
    assert Lower(s) == s;
    hide Lower;
    assert TrimLeft(s) == s && TrimRight(s) == s;
  }

  /** Main result: the local part of an address is its id when it is one already: safe characters,
      at most 32 of them, and no mark at its ends. */
  lemma SlugOfPlain(local: string, host: string)
    requires PlainSlug(local)
    ensures Slug(local + "@" + host) == local
  {
    PlainStays(local);
    hide TrimSpace, Lower, Keep, TrimMarks;
    UpToFirst(local, '@', host);
  }

  function Digit(n: nat): char
    requires n < 10
  {
    "0123456789"[n]
  }

  function Decimal(n: nat): string {
    if n < 10 then [Digit(n)] else Decimal(n / 10) + [Digit(n % 10)]
  }

  function Number(s: string): nat {
    if s == [] then 0 else Number(s[..|s| - 1]) * 10 + DigitValue(s[|s| - 1])
  }

  function DigitValue(c: char): nat {
    if '0' <= c <= '9' then c as int - '0' as int else 0
  }

  lemma NumberLast(s: string, c: char)
    ensures Number(s + [c]) == Number(s) * 10 + DigitValue(c)
  {
    assert (s + [c])[..|s|] == s;
  }

  lemma DigitReads(d: nat)
    requires d < 10
    ensures DigitValue(Digit(d)) == d
  {
  }

  lemma {:induction false} NumberOfDecimal(n: nat)
    ensures Number(Decimal(n)) == n
  {
    hide Digit;
    hide DigitValue;
    DigitReads(n % 10);
    if n < 10 {
      assert Decimal(n) == "" + [Digit(n % 10)];
      NumberLast("", Digit(n % 10));
    } else {
      NumberOfDecimal(n / 10);
      NumberLast(Decimal(n / 10), Digit(n % 10));
    }
  }

  lemma DecimalInjective(a: nat, b: nat)
    requires Decimal(a) == Decimal(b)
    ensures a == b
  {
    NumberOfDecimal(a);
    NumberOfDecimal(b);
  }

  /** The k-th id tried for a base: the base, base-2, base-3, ... */
  function Candidate(base: string, k: nat): string
    requires k >= 1
  {
    if k == 1 then base else base + "-" + Decimal(k)
  }

  lemma CandidateInjective(base: string, j: nat, k: nat)
    requires j >= 1 && k >= 1 && Candidate(base, j) == Candidate(base, k)
    ensures j == k
  {
    assert j > 1 ==> |Candidate(base, j)| > |base|;
    assert k > 1 ==> |Candidate(base, k)| > |base|;
    if j > 1 {
      assert Candidate(base, j)[|base| + 1..] == Decimal(j) && Candidate(base, k)[|base| + 1..] == Decimal(k);
      DecimalInjective(j, k);
    }
  }

  ghost predicate IsCandidate(base: string, id: string) {
    exists k: nat :: k >= 1 && id == Candidate(base, k)
  }

  /** The first id for the base that is not taken. */
  ghost predicate FirstFree(taken: set<string>, base: string, id: string) {
    exists k: nat :: k >= 1 && id == Candidate(base, k) && id !in taken
               && forall j: nat :: 1 <= j < k ==> Candidate(base, j) in taken
  }

  lemma BaseFree(taken: set<string>, base: string)
    requires base !in taken
    ensures FirstFree(taken, base, base)
  {
    assert base == Candidate(base, 1);
  }

  lemma BaseOnly(taken: set<string>, base: string, id: string)
    requires base !in taken && FirstFree(taken, base, id)
    ensures id == base
  {
    assert base == Candidate(base, 1);
  }

  /** The first n candidates. */
  function Tried(base: string, n: nat): set<string> {
    if n == 0 then {} else Tried(base, n - 1) + {Candidate(base, n)}
  }

  lemma {:induction false} TriedAre(base: string, n: nat)
    ensures forall id :: id in Tried(base, n) <==> exists j: nat :: 1 <= j <= n && id == Candidate(base, j)
  {
    hide Candidate;
    if n > 0 {
      TriedAre(base, n - 1);
    }
  }

  lemma {:induction false} TriedDiffer(base: string, n: nat)
    ensures |Tried(base, n)| == n
  {
    hide Candidate;
    if n > 0 {
      TriedDiffer(base, n - 1);
      if Candidate(base, n) in Tried(base, n - 1) {
        TriedAre(base, n - 1);
        var j: nat :| 1 <= j <= n - 1 && Candidate(base, n) == Candidate(base, j);
        CandidateInjective(base, n, j);
      }
    }
  }

  /** The suffix loop: on any finite pool it ends at the first free candidate. */
  method FreeId(taken: set<string>, base: string) returns (id: string)
    ensures FirstFree(taken, base, id) && id !in taken
  {
    id := base;
    var counter := 2;
    assert id == Candidate(base, 1);
    hide Candidate;
    while id in taken
      invariant counter >= 2 && id == Candidate(base, counter - 1)
      invariant Tried(base, counter - 2) <= taken && counter - 2 <= |taken|
      decreases |taken| + 2 - counter
    {
      TriedDiffer(base, counter - 1);
      Fits(Tried(base, counter - 1), taken);
      id := Candidate(base, counter);
      counter := counter + 1;
    }
    TriedAre(base, counter - 2);
  }

  lemma {:induction false} Fits<T>(a: set<T>, b: set<T>)
    requires a <= b
    ensures |a| <= |b|
  {
    assert b == a + (b - a);
  }
}
