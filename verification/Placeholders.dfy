/** Placeholder tokens and the restore loops of rich_message.go and formatters.go.
    A text is a sequence of characters and placeholder tokens; tokens are numbered in
    the order of their creation, and no token occurs in the text a user wrote. */
module Placeholders {

  datatype Sym = Ch(c: char) | Tok(id: nat)

  type Syms = seq<Sym>

  type Store = map<nat, Syms>

  /** Every token of the text was created before token n. */
  predicate EarlierOnly(text: Syms, n: nat) {
    forall i :: 0 <= i < |text| && text[i].Tok? ==> text[i].id < n
  }

  /** Each content holds only tokens created earlier, however they came to be nested. */
  ghost predicate Ordered(store: Store) {
    forall id :: id in store ==> EarlierOnly(store[id], id)
  }

  ghost predicate Below(store: Store, n: nat) {
    forall id :: id in store ==> id < n
  }

  /** createPlaceholder keeps a store ordered when its content is made of existing text. */
  lemma CreateKeepsOrder(store: Store, next: nat, content: Syms)
    requires Ordered(store) && Below(store, next) && EarlierOnly(content, next)
    ensures Ordered(store[next := content]) && next !in store && Below(store[next := content], next + 1)
  {
  }

  /** One more than the largest token of the text. */
  function Bound(text: Syms): (n: nat)
    ensures EarlierOnly(text, n)
    ensures forall m: nat :: EarlierOnly(text, m) ==> n <= m
  {
    if text == [] then 0
    else
      var rest := Bound(text[1..]);
      var first := if text[0].Tok? then text[0].id + 1 else 0;
      assert forall m: nat :: EarlierOnly(text, m) ==> EarlierOnly(text[1..], m);
      if first > rest then first else rest
  }

  /** The text with every stored token replaced by its expanded content. */
  ghost function Expand(text: Syms, store: Store): Syms
    requires Ordered(store)
    decreases Bound(text), |text|
  {
    if text == [] then []
    else (if text[0].Tok? && text[0].id in store then Expand(store[text[0].id], store) else [text[0]])
         + Expand(text[1..], store)
  }

  /** Replacements still to be made. */
  ghost function Weight(text: Syms, store: Store): nat
    requires Ordered(store)
    decreases Bound(text), |text|
  {
    if text == [] then 0
    else (if text[0].Tok? && text[0].id in store then 1 + Weight(store[text[0].id], store) else 0)
         + Weight(text[1..], store)
  }

  /** strings.ReplaceAll of one token. */
  function ReplaceAll(text: Syms, id: nat, content: Syms): Syms {
    if text == [] then []
    else (if text[0] == Tok(id) then content else [text[0]]) + ReplaceAll(text[1..], id, content)
  }

  /** What one symbol expands to. */
  ghost function Opened(x: Sym, store: Store): Syms
    requires Ordered(store)
  {
    if x.Tok? && x.id in store then Expand(store[x.id], store) else [x]
  }

  lemma ExpandFirst(text: Syms, store: Store)
    requires Ordered(store) && text != []
    ensures Expand(text, store) == Opened(text[0], store) + Expand(text[1..], store)
  {
  }

  lemma ExpandNothing(store: Store)
    requires Ordered(store)
    ensures Expand([], store) == []
  {
  }

  lemma {:induction false} ExpandConcat(a: Syms, b: Syms, store: Store)
    requires Ordered(store)
    ensures Expand(a + b, store) == Expand(a, store) + Expand(b, store)
    decreases |a|
  {
    hide Expand, Opened;
    if a == [] {
      ExpandNothing(store);
      assert a + b == b;
    } else {
      assert (a + b)[0] == a[0] && (a + b)[1..] == a[1..] + b;
      ExpandConcat(a[1..], b, store);
      ExpandFirst(a, store);
      ExpandFirst(a + b, store);
    }
  }

  lemma {:induction false} WeightConcat(a: Syms, b: Syms, store: Store)
    requires Ordered(store)
    ensures Weight(a + b, store) == Weight(a, store) + Weight(b, store)
    decreases |a|
  {
    if a == [] {
      assert a + b == b;
    } else {
      assert (a + b)[1..] == a[1..] + b;
      WeightConcat(a[1..], b, store);
    }
  }

  function AddAll(store: Store, next: nat, contents: seq<Syms>): Store {
    if contents == [] then store
    else AddAll(store, next, contents[..|contents| - 1])[next + |contents| - 1 := contents[|contents| - 1]]
  }

  ghost predicate SameBelow(a: Store, b: Store, n: nat) {
    forall id: nat :: id < n ==> (id in a <==> id in b) && (id in a ==> a[id] == b[id])
  }

  ghost predicate HoldsAt(store: Store, next: nat, contents: seq<Syms>) {
    forall id: nat :: next <= id < next + |contents| ==> id in store && store[id] == contents[id - next]
  }

  /** Creating tokens one after another keeps the store ordered and leaves earlier
      entries alone. */
  lemma {:induction false} AddAllOrdered(store: Store, next: nat, contents: seq<Syms>)
    requires Ordered(store) && Below(store, next)
    requires forall i :: 0 <= i < |contents| ==> EarlierOnly(contents[i], next)
    ensures Ordered(AddAll(store, next, contents)) && Below(AddAll(store, next, contents), next + |contents|)
    ensures HoldsAt(AddAll(store, next, contents), next, contents)
    ensures SameBelow(store, AddAll(store, next, contents), next)
    decreases |contents|
  {
    if contents != [] {
      var n := |contents| - 1;
      AddAllOrdered(store, next, contents[..n]);
      CreateKeepsOrder(AddAll(store, next, contents[..n]), next + n, contents[n]);
    }
  }

  lemma ExpandOne(s: Sym, store: Store)
    requires Ordered(store)
    ensures Expand([s], store) == if s.Tok? && s.id in store then Expand(store[s.id], store) else [s]
    ensures Weight([s], store) == if s.Tok? && s.id in store then 1 + Weight(store[s.id], store) else 0
  {
    assert [s][1..] == [];
  }

  /** A replacement keeps the expansion and uses up weight. */
  lemma {:induction false} ReplaceKeepsExpansion(text: Syms, id: nat, store: Store)
    requires Ordered(store) && id in store
    ensures Expand(ReplaceAll(text, id, store[id]), store) == Expand(text, store)
    ensures Weight(ReplaceAll(text, id, store[id]), store) <= Weight(text, store)
    ensures Tok(id) in text ==> Weight(ReplaceAll(text, id, store[id]), store) < Weight(text, store)
    decreases |text|
  {
    if text != [] {
      ReplaceKeepsExpansion(text[1..], id, store);
      var head := if text[0] == Tok(id) then store[id] else [text[0]];
      ExpandConcat(head, ReplaceAll(text[1..], id, store[id]), store);
      WeightConcat(head, ReplaceAll(text[1..], id, store[id]), store);
      if text[0] != Tok(id) {
        ExpandOne(text[0], store);
        assert Tok(id) in text ==> Tok(id) in text[1..];
      }
    }
  }

  ghost predicate NoneLeft(text: Syms, store: Store) {
    forall id :: id in store ==> Tok(id) !in text
  }

  lemma {:induction false} ExpandOfNormal(text: Syms, store: Store)
    requires Ordered(store) && NoneLeft(text, store)
    ensures Expand(text, store) == text
    decreases |text|
  {
    if text != [] {
      assert forall id :: id in store ==> Tok(id) !in text[1..];
      ExpandOfNormal(text[1..], store);
      assert text[0] in text;
    }
  }

  /** The restore loop. The map is walked in an arbitrary order that may change from
      round to round. Main result: it terminates and always gives the full expansion. */
  method Restore(text: Syms, store: Store) returns (restored: Syms)
    requires Ordered(store)
    ensures restored == Expand(text, store)
    ensures NoneLeft(restored, store)
  {
    restored := text;
    var replacedAny := true;
    while replacedAny
      invariant Expand(restored, store) == Expand(text, store)
      invariant !replacedAny ==> NoneLeft(restored, store)
      decreases if replacedAny then 1 + Weight(restored, store) else 0
    {
      replacedAny := false;
      ghost var before := restored;
      var todo := store.Keys;
      while todo != {}
        invariant todo <= store.Keys
        invariant Expand(restored, store) == Expand(text, store)
        invariant replacedAny ==> Weight(restored, store) < Weight(before, store)
        invariant !replacedAny ==> restored == before && forall id :: id in store.Keys - todo ==> Tok(id) !in restored
        decreases todo
      {
        var id :| id in todo;
        todo := todo - {id};
        if Tok(id) in restored {
          ReplaceKeepsExpansion(restored, id, store);
          restored := ReplaceAll(restored, id, store[id]);
          replacedAny := true;
        }
      }
    }
    ExpandOfNormal(restored, store);
  }

  /** Later tokens do not change the expansion of earlier text. */
  lemma {:induction false} ExpandLocal(text: Syms, n: nat, small: Store, large: Store)
    requires Ordered(small) && Ordered(large) && EarlierOnly(text, n)
    requires SameBelow(small, large, n)
    ensures Expand(text, small) == Expand(text, large)
    decreases n, |text|
  {
    if text != [] {
      ExpandLocal(text[1..], n, small, large);
      if text[0].Tok? && text[0].id in small {
        ExpandLocal(small[text[0].id], text[0].id, small, large);
      }
    }
  }

  // ---- Passes between shielding and restoring ----

  /** A text, its placeholders and the number of the next one. */
  datatype Draft = Draft(text: Syms, store: Store, next: nat)

  /** What one pass does next: store a content under a new token, or rewrite the text. */
  datatype Step = Create(content: Syms) | Rewrite(text: Syms)

  function Made(draft: Draft, step: Step): Draft {
    match step
    case Create(content) => Draft(draft.text, draft.store[draft.next := content], draft.next + 1)
    case Rewrite(text) => draft.(text := text)
  }

  /** Only tokens that exist are used. */
  predicate Fits(draft: Draft, step: Step) {
    match step
    case Create(content) => EarlierOnly(content, draft.next)
    case Rewrite(text) => EarlierOnly(text, draft.next)
  }

  ghost predicate Sheltered(draft: Draft) {
    Ordered(draft.store) && Below(draft.store, draft.next) && EarlierOnly(draft.text, draft.next)
  }

  /** A pass looks at the text and its placeholders, and uses only tokens that exist. */
  ghost predicate Tame(pass: Draft -> Step) {
    forall draft :: Sheltered(draft) ==> Fits(draft, pass(draft))
  }

  function Passed(draft: Draft, passes: seq<Draft -> Step>): Draft {
    if passes == [] then draft
    else
      var before := Passed(draft, passes[..|passes| - 1]);
      Made(before, passes[|passes| - 1](before))
  }

  lemma StepKeepsSheltered(draft: Draft, step: Step)
    requires Sheltered(draft) && Fits(draft, step)
    ensures Sheltered(Made(draft, step)) && SameBelow(draft.store, Made(draft, step).store, draft.next)
    ensures draft.next <= Made(draft, step).next
  {
  }

  /** Main result: whatever the passes do with existing text, the store stays one the restore
      loop expands in any order, and what was shielded before them expands as before. */
  lemma {:induction false} PassesKeepShelter(draft: Draft, passes: seq<Draft -> Step>)
    requires Sheltered(draft) && forall i :: 0 <= i < |passes| ==> Tame(passes[i])
    ensures Sheltered(Passed(draft, passes)) && draft.next <= Passed(draft, passes).next
    ensures SameBelow(draft.store, Passed(draft, passes).store, draft.next)
    ensures forall t :: EarlierOnly(t, draft.next) ==> Expand(t, Passed(draft, passes).store) == Expand(t, draft.store)
    decreases |passes|
  {
    if passes != [] {
      var n := |passes| - 1;
      var before := Passed(draft, passes[..n]);
      PassesKeepShelter(draft, passes[..n]);
      assert Tame(passes[n]);
      StepKeepsSheltered(before, passes[n](before));
    }
    var end := Passed(draft, passes);
    forall t | EarlierOnly(t, draft.next) ensures Expand(t, end.store) == Expand(t, draft.store) {
      ExpandLocal(t, draft.next, draft.store, end.store);
    }
  }

  function Plain(s: string): Syms {
    seq(|s|, i requires 0 <= i < |s| => Ch(s[i]))
  }

  lemma ExpandPlain(s: string, store: Store)
    requires Ordered(store)
    ensures Expand(Plain(s), store) == Plain(s)
  {
    ExpandOfNormal(Plain(s), store);
  }

  /** escapeHTML: tokens hold none of the escaped characters. */
  function EscapeHtml(text: Syms): Syms {
    if text == [] then []
    else (if text[0] == Ch('&') then Plain("&amp;")
          else if text[0] == Ch('<') then Plain("&lt;")
          else if text[0] == Ch('>') then Plain("&gt;")
          else [text[0]]) + EscapeHtml(text[1..])
  }

  lemma EscapeNothing()
    ensures EscapeHtml([]) == []
  {
  }

  lemma EscapeFirst(text: Syms)
    requires text != []
    ensures EscapeHtml(text) == EscapeHtml([text[0]]) + EscapeHtml(text[1..])
    ensures text[0].Tok? ==> EscapeHtml([text[0]]) == [text[0]]
  {
    hide Plain;
    EscapeNothing();
    assert [text[0]][1..] == [];
  }

  lemma {:induction false} EscapeConcat(a: Syms, b: Syms)
    ensures EscapeHtml(a + b) == EscapeHtml(a) + EscapeHtml(b)
    decreases |a|
  {
    hide EscapeHtml;
    if a == [] {
      EscapeNothing();
      assert a + b == b;
    } else {
      assert (a + b)[0] == a[0] && (a + b)[1..] == a[1..] + b;
      EscapeConcat(a[1..], b);
      EscapeFirst(a);
      EscapeFirst(a + b);
    }
  }

  /** Escaping goes symbol by symbol and leaves tokens alone. */
  lemma EscapeAround(a: Syms, x: Sym, b: Syms)
    ensures EscapeHtml(a + [x] + b) == EscapeHtml(a) + EscapeHtml([x]) + EscapeHtml(b)
    ensures x.Tok? ==> EscapeHtml([x]) == [x]
  {
    EscapeConcat(a + [x], b);
    EscapeConcat(a, [x]);
    EscapeFirst([x]);
  }

  lemma {:induction false} EscapeKeepsTokens(text: Syms, n: nat)
    requires EarlierOnly(text, n)
    ensures EarlierOnly(EscapeHtml(text), n)
  {
    if text != [] {
      EscapeKeepsTokens(text[1..], n);
    }
  }
}
