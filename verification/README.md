# Verified core of the Antigravity Telegram agent

A Dafny model of the parts of the agent that run over unbounded inputs or unbounded runs,
with proofs of what they are for. `dafny verify dfyconfig.toml` checks everything.

The files follow the Go files they model.

| files | modelled code | form |
|---|---|---|
| `Text`, `Sanitizer`, `Splitter`, `Chunks` | `formatters.go`: tag balancing, splitting of oversized paragraphs, chunking | loops as methods, proved against functions; theorems about the functions |
| `Html`, `SanitizedText`, `SecondPass`, `ChunkLengths`, `GeneratedText` | the text that code writes: an HTML reader, when the text reads back, what a second pass changes, how long the chunks are and what they show | functions and theorems |
| `Placeholders`, `CodeSpans`, `Fences`, `CodeElements` | `parser.go`, `rich_message.go`: code shielding and the restore loop; how the stored elements read | the same |
| `Quotas`, `Identity`, `Accounts`, `AccountUse`, `Migration`, `AccountPool`, `GlobalPool` | `account_pool.go` | `Accounts` is the pool as a value with its invariants and runs; `AccountUse` says who gets which account afterwards; `AccountPool` is the class over shared account objects; `GlobalPool` is that class as the sessions share it |
| `Sessions`, `AgySession` | `session.go`: start, Kill, exit handlers, error recovery | `Sessions` has the state machine, the restart budget and the lease laws; `AgySession` is the class, which works on the shared pool |
| `Dispatch`, `Dispatcher` | `handlers.go`: the per-chat queues | steps and runs; the class with one method per critical section |
| `Watchdog` | `subprocess_watchdog.go` | methods, scan history, the `Reaper` class |
| `Results` | optional values and results | |

## How things are represented

- **Text.** A string is a sequence of Unicode scalar values (Go runes); lengths under a limit
  are counted in UTF-16 code units as in section 2.1 of RFC 2781.
- **Placeholders.** A shielded text is a sequence of characters and numbered tokens. A token
  never occurs in text a user wrote, and tokens are numbered in the order of creation. The
  restore loop walks the map in an arbitrary order that may change from round to round.
- **HTML.** The sanitiser maps a token stream and a stack to atoms: a character that is written
  escaped, a character of a shown tag name, which is not escaped, an opening tag, a closing tag.
  `Sanitizer.Read` is an independent reader of atoms: it pairs each character with the tags around
  it and refuses words that are not well nested; it takes every atom as it was meant.
- **HTML as text.** `Html.Markup` is the text of the atoms and `Html.Lex` a reader of any text after
  the states of section 13.2.5 of the HTML standard: tags, attributes, comments and character
  references. The table of references is a parameter; all that is asked of it is that it has the
  three that `escapeHTML` writes and that no reference stands for more UTF-16 units than it has.
  The reader takes text whose newlines are normalised already (section 13.2.3.5), so a carriage
  return or a NUL, which can only come from a character reference, is out of its scope, and so is
  the raw text of elements such as `script`, which the sanitiser never writes.
- **Markdown rules.** Fences and code spans follow sections 4.5 and 6.1 of CommonMark 0.31.2
  only as far as the code does: a closing fence may hold inner blanks, backticks in an info
  string are not rejected, and a span never crosses a blank line. The comment in
  `formatters.go:176` names section 4.8 for spans; the code is what is modelled.
- **Time** is an integer clock passed to each operation; 0 is Go's zero time. At the exact end of
  a cooldown a locked chat gets its account and other chats do not, as in the code
  (`Accounts.CooldownEnd`).
- **Leases.** The pool counts the turns of an account, not whose they are. A session's seat has a
  ghost count of the leases that are its own: taken by start() or a failover, not given back since,
  and still covered by the turns of the account. When an operation of another chat leaves fewer
  turns than that, the count falls with them. The turns beyond it are the leases of other chats.
- **Concurrency.** A protocol is a set of steps over shared state, one per critical section or
  channel operation, and a run is any sequence of enabled steps.

## Where the code does less than it says

- The name of a tag that is not allowed is written unescaped (`formatters.go:122`, `143`, `147`),
  and an HTML tag name runs to white space, `/` or `>`. For `<x<b>` the code writes `&lt;x<b&gt;`,
  which reads as `<x` followed by a tag that never ends; for `<x<b/><i>` a `<b>` appears that the
  input does not have. `SanitizedText.NamesThatAreLost` and `SanitizedText.TagAppears` have these
  inputs. A name reads back if and only if it holds no `<` that opens markup and no `&` that starts
  a reference (`SanitizedText.NameReadsBackIff`), and the whole text if and only if that holds of
  every shown name, no kept attribute value holds a double quote and no kept attribute stands twice
  in a tag (`SanitizedText.TextReadsBackIff`): the code writes a second `href`, and a reader drops
  it (`SanitizedText.SecondValueIsLost`). Under that condition the text means what the input means
  (`SanitizedText.TextMeansTheSame`). A second pass then changes it if and only if some shown name
  holds `&`, `<` or `>` (`SanitizedText.SecondPassSameIff`): `<x&y>` becomes `&lt;x&y&gt;` and then
  `&lt;x&amp;y&gt;` (`SanitizedText.SecondPassChanges`). For names that are not safe it leaves the
  text alone if and only if no shown name holds an angle bracket and every `&` in one starts
  `&amp;`, `&lt;` or `&gt;` (`SecondPass.UnchangedIff`); `<x&amp;>` is such a name, stable but not
  read back (`SecondPass.ReferenceStays`).
- `SplitHTMLChunks` promises chunks within the limit; only the raw chunks are bounded. A run of `>`
  that fits the limit becomes a chunk of four times its length (`GeneratedText.EscapesGrow`), and a
  chunk that carries a `<b>` grows by seven (`ChunkLengths.CarriedTagGrows`).
  `ChunkLengths.SanitizedLength` is the exact length, `ChunkLengths.TextChunksFitIff` the exact
  condition, and `ChunkLengths.ChunksWithin` a bound a caller can compute before the call. What a
  chunk shows, without its markup, always fits (`GeneratedText.EveryChunkShowsWithin`).
- `splitOversizedParagraph` is documented never to cut inside a tag or an entity. It can: the
  back-off to a blank does not look at tags again, the look-back for an entity runs into a tag that
  has just been closed, and it sees eleven runes only. `Splitter.NeverCutIff` and
  `Splitter.NeverCutEntityIff` give the exact conditions and `Splitter.LinkTagCanBeCut` a link that
  is cut. A paragraph that fits is never cut, so its links are safe
  (`GeneratedText.FittingParagraphsShow`), unless a blank line stands inside a tag
  (`Chunks.BlankLineCutsTag`).
- The first chunk, and any chunk that does not begin with a paragraph that was too long for the one
  before it, is closed up to two units early: a separator is counted after its last paragraph too
  (`Chunks.ClosedWhenFull`).
- The language of a fence is written into `class` with its double quotes as they are, so a block
  reads back if and only if its language holds none (`CodeElements.BlockReadsIff`).
- The rotation comparator is an order only because an account that was never fetched carries
  fraction 0, which is an invariant of the pool; `Accounts.BeforeCanCycle` shows a cycle without it.
- A Kill that lands between the two critical sections of a running start() does not end the
  session: `Sessions.KillMissesWindow` says exactly when.
- Leases are lost. The end of a turn that goes well always gives a lease back
  (`session.go:1964-1966`), while only a start() that acquires an account takes one, and the next
  turn of a live session does not call start() (`handlers.go:1472-1478`). So a session holds the
  lease it took (`Sessions.StartHoldsOne`) exactly until its first turn ends or is retried, or until
  the account loses its turns to a cooldown, a freeze or a release by somebody else
  (`Sessions.OneLeaseOnly`); clearing the cooldown does not bring it back. From then on every turn
  that ends well takes the lease of another chat on the account, whenever there is one
  (`Sessions.LaterReleasesTake`, `Sessions.CooledElsewhereTakes`): k such turns give back k leases
  for the one that was taken (`Sessions.EndedTurnsTake`). Every stream retry, too, gives a lease
  back and takes none (`Sessions.RetryDropsLease`), so a turn that is resumed by k retries and then
  given up leaves its account with k turns fewer, k - 1 when no turn was running. Other chats lose
  leases if and only if these are more than the turn held, none or one, and the account had more
  turns than that (`Sessions.TurnsAfterGivingUp`). The last Kill of a turn that is given up adds
  nothing, because the turn is cleared before it (`AgySessions.AgySession.GiveUp`). A quota
  failover whose start fails gives the new account's lease back twice
  (`Sessions.FailedRotationReleasesTwice`); a stream failover whose start fails gives it back once
  (`Sessions.FailedStreamFailoverBalances`).
- The text streamed so far survives a stream retry or failover if and only if the turn has a message
  or there is no text: the reader's deferred reset drops it at message 0 (`session.go:1174-1180`),
  which is where a turn is when its "Thinking" message could not be sent (`Sessions.TextSurvivesIff`,
  `Sessions.TextIsLost`). A quota failover always loses it (`AgySessions.AgySession.OnError`).
- The branch of `UnfreezeAccount` that resumes a cooldown is dead: freezing clears the cooldown
  (`Accounts.UnfreezeActivates`). So is the fallback at `formatters.go:286-300`, which the method
  `Splitter.FindCut` proves unreachable.

## Model

| member | source | states |
|---|---|---|
| Sanitizer.BalanceAndSanitize | formatters.go:75-160 | the token loop returns the specified output and exactly the stack left open, for every stream and starting stack; what each token opens, closes and shows is said by the members below |
| Sanitizer.StartTagOpens | formatters.go:97-119 | an allowed start tag opens one tag of its name with every kept attribute, under its lower-cased key and with exactly its value, in order, and no other attribute; `expandable` has no value |
| Sanitizer.KeptPairs | formatters.go:102-107 | the six kept pairs of tag and attribute, and no others |
| Sanitizer.AllowedSurvive | formatters.go:13-23 | each of the sixteen tags, with its attribute if any, keeps its text under itself and leaves nothing open |
| Sanitizer.EndTagCloses | formatters.go:124-144 | an allowed end tag closes the innermost open tag of its name after everything opened inside it, innermost first, and leaves the rest open; without such a tag it does nothing |
| Sanitizer.OthersShown | formatters.go:94-148 | text, tags that are not allowed and self-closing tags are shown as written, open and close nothing; comments and doctypes are dropped |
| Sanitizer.SanitizedReads | formatters.go:75-160 | taken as meant, the output is well nested, an independent reader sees every character under the tags the input gives it, and before the final closing tags it has exactly the returned stack open |
| Sanitizer.CarryPreservesMeaning | formatters.go:75-160 | sanitising A, then B from A's returned stack, gives atoms that read the same as those of A followed by B, and the final stacks agree |
| Sanitizer.SanitizedOnlyCleanTags | formatters.go:13-23 | the only tags the sanitiser writes or leaves open on purpose are allowed ones with allowed attributes |
| Sanitizer.SanitizeIdempotent | formatters.go:75-160 | any token stream that spells the output is sanitised to that same output, every character escaped, with nothing left open |
| Sanitizer.WellNestedIsFixed | formatters.go:75-160 | a well-nested stream of allowed tags with kept attributes is written as it is |
| Html.ValueReadsBackIff | formatters.go:102-121 | a written attribute value ends at its own closing quote if and only if it holds no double quote |
| Html.DecodeEscaped | formatters.go:44-49 | what `escapeHTML` writes decodes to what it was given, for every text |
| Html.ReadsNoMore | formatters.go:75-160 | a reader never finds more characters in written text than were written, and fewer when a shown name holds markup or a reference |
| Html.LexesBackIff | formatters.go:75-160 | written text reads as its atoms if and only if its unescaped names hold no markup and no reference, its attribute values no double quote, and its tags no attribute twice |
| SanitizedText.NameReadsBackIff | formatters.go:120-148 | a shown start, end or self-closing tag reads as its own characters if and only if its name holds no `<` that opens markup and no `&` that starts a reference |
| SanitizedText.TextReadsBackIff | formatters.go:75-160 | the text of a sanitised stream reads back if and only if every shown name is safe, no kept or carried attribute value holds a double quote, and no tag keeps an attribute twice |
| SanitizedText.TextMeansTheSame | formatters.go:75-160 | under that condition a reader of the text finds exactly what the input means, only allowed tags with allowed attributes, and nothing left open |
| SanitizedText.CarryKeepsText | formatters.go:75-160 | under that condition the texts of A and of B from A's returned stack mean together what the text of A followed by B means |
| SanitizedText.SecondPassSameIff | formatters.go:75-160 | sanitising such a text again changes nothing if and only if no shown name holds a character `escapeHTML` replaces |
| SanitizedText.NamesThatAreLost | formatters.go:120-148 | the start, end and self-closing tag named `x<b` read as `<x`, `</x` and `<x`, and the rest is lost |
| SanitizedText.TagAppears | formatters.go:145-148 | `<x<b/><i>` makes the reader open a `<b>` that the input does not have |
| SanitizedText.SecondPassChanges | formatters.go:120-123 | the text for `<x&y>` is changed by a second pass |
| SanitizedText.SecondValueIsLost | formatters.go:100-118 | a link with two `href` values is written with both, and a reader finds the first |
| SecondPass.UnchangedIff | formatters.go:75-160 | for every name a tokenizer can give, safe or not, when the kept attributes read back: a second pass changes nothing if and only if no shown name holds an angle bracket and every `&` in one starts a reference `escapeHTML` writes |
| SecondPass.ReferenceStays | formatters.go:120-123 | the name `x&amp;` does not read back, and a second pass still leaves its text alone |
| Sanitizer.SanitizeChunks | formatters.go:358-372 | the loop sends exactly the chunks of the specification: each raw chunk from the stack the ones before it leave open, blank ones dropped, and one empty chunk when none is left |
| Sanitizer.SentNotBlank | formatters.go:358-372 | no blank chunk is sent but the empty one that stands for nothing |
| SanitizedText.BlankIff | formatters.go:363 | a chunk counts as blank if and only if trimming its text leaves nothing |
| Sanitizer.SentChunksShow | formatters.go:358-372 | taken as meant, every one of them is well nested over allowed tags, there is at least one, and together they show what the undivided stream means up to white space outside tags |
| Sanitizer.SentChunksShowAll | formatters.go:358-372 | character by character: the sent chunks show exactly what their raw chunks mean in sequence, and a dropped one has only white space outside all tags to show |
| Splitter.SplitOversizedParagraph | formatters.go:212-310 | the loop terminates for every paragraph and limit and produces the parts the other theorems speak about |
| Splitter.FindCut | formatters.go:222-300 | one cut: the four scans compute the cut of that rule; the fallback branch cannot be reached |
| Splitter.CutFollowsRule | formatters.go:222-283 | every cut, said without the scans: from the longest prefix that fits, back to the tag that is open there, or else to the entity among its last eleven runes, unless that starts the text, or else behind the last blank of its last fifth, or else not at all |
| Splitter.PartsEndAtCuts | formatters.go:220-310 | each part but the last ends at such a cut of what the parts before it leave, which does not fit the limit |
| Splitter.PartsCover | formatters.go:212-310 | the parts are non-empty, concatenate to the input, and for limits of at least 2 fit the limit in UTF-16 units |
| Splitter.PartsAligned | formatters.go:238-283 | for every limit, no boundary falls inside a tag or entity of text whose segments fit the limit, whose tags are safe and whose entities have at most 12 runes |
| Splitter.NeverCutIff | formatters.go:209-283 | a tag is never cut, in any safe context and at any limit that it fits, if and only if it holds no blank and no `&` without a later `;` among its last eleven runes |
| Splitter.NeverCutEntityIff | formatters.go:250-264 | an entity is never cut, in any safe context and at any limit that it fits, if and only if it has at most twelve runes |
| Splitter.LinkTagCanBeCut | formatters.go:275-283 | a concrete link tag that is cut in some context |
| Chunks.ParagraphsAre | formatters.go:322 | the paragraphs join to the text at blank lines, none holds a blank line, and none but the last ends in a newline: the text is cut at its blank lines from the left |
| Chunks.PackParagraphs | formatters.go:322-356 | the packing loop computes the raw chunks of the greedy filling of the paragraphs |
| Chunks.RawChunksGreedy | formatters.go:323-356 | the raw chunks are those of a filling in which every paragraph is added to the open chunk if and only if it fits there, and otherwise begins the next one, its parts but the last being chunks of their own; said over a partition of the paragraphs, without the loop |
| Chunks.FilledOnce | formatters.go:323-356 | the paragraphs have only one such filling |
| Chunks.ClosedWhenFull | formatters.go:329-334 | a chunk of whole paragraphs is closed only if it exceeds the limit with a separator and the next paragraph, or, when it did not begin with a paragraph that had not fitted, comes within two units of it |
| Chunks.RawChunksWithinLimit | formatters.go:327-356 | every raw chunk fits the limit in UTF-16 units, for every limit of at least 2 |
| Chunks.TextIsRawChunks | formatters.go:322-356 | the text is exactly the raw chunks in order with zero or more blank-line separators after each, for every limit of at least 2 |
| Chunks.RawChunksAligned | formatters.go:209-356 | raw chunk boundaries never fall inside a tag or entity, when the blank lines are between segments and each paragraph fits the limit, whatever its tags hold, or has no segment that can be cut |
| Chunks.RawChunksKeepMeaning | formatters.go:358-366 | for such a text, when the tokenizer reads every run of its segments as the segments one by one, the whole text means what its raw chunks mean in sequence, with the very blank-line separators between them that the text has; no other newline is lost |
| Chunks.ChunksKeepMeaning | formatters.go:317-373 | so the chunks of such a text, and of any text that is sent whole, show it character by character with the tags around each, newlines of code blocks included; only separators between raw chunks, and raw chunks of white space outside all tags, are lost |
| Chunks.BlankLineCutsTag | formatters.go:322-356 | a tag with a blank line in it is sent in two halves at every limit that falls between them |
| Chunks.SplitHTMLChunks | formatters.go:317-373 | the whole function: the chunks of the specification, at least one, the whole sanitised text when it fits; for a text that is sent whole, or whose paragraphs fit the limit or cannot be cut, and whose runs the tokenizer reads piece by piece, they show together what the whole text means |
| GeneratedText.GeneratedLexes | formatters.go:75-160 | the text of any escaped characters and allowed tags, with no quote in a value and no attribute twice, is read piece by piece in all its runs, and costs what its pieces cost |
| GeneratedText.GeneratedChunksShow | formatters.go:317-373 | so the chunks of such a text show together what it means, but for those separators and blank chunks, when it is sent whole or each of its paragraphs fits the limit or has nothing that can be cut |
| GeneratedText.FittingParagraphsShow | formatters.go:213-215 | in particular for every such text, links and other attributes included, whose paragraphs fit the limit |
| GeneratedText.ChunkTextShows | formatters.go:358-372 | what a reader finds in the text of a sent chunk is what the chunk shows, when the shown names and kept values are safe |
| ChunkLengths.SanitizedLength | formatters.go:75-160 | the exact length of a sanitised text: the opening and closing tags of what it carries, plus a cost per token, whatever is left open |
| ChunkLengths.ChunksFitIff | formatters.go:358-372 | all sent chunks fit a size if and only if carry plus cost does for every raw chunk that is not blank |
| ChunkLengths.TextChunksFitIff | formatters.go:312-373 | for a text: all its chunks fit a size if and only if its token costs do, when it is sent whole, or carry plus cost does for every raw chunk that is not blank; all of it can be computed before the call |
| ChunkLengths.ChunksWithin | formatters.go:312-373 | a caller who lowers the limit by the overhead of the text, which can be computed before the call, gets chunks of at most the size aimed at, when the text is sent whole or each paragraph fits the limit or cannot be cut |
| GeneratedText.EscapesGrow | formatters.go:312-316 | n `>` at limit n become one chunk of 4n units, as the reader lexes them |
| ChunkLengths.CarriedTagGrows | formatters.go:358-366 | a chunk that carries one `<b>` has seven units more than its escaped text |
| ChunkLengths.VisibleWithin | formatters.go:312-373 | for every text, if no token shows more than it was written with, every chunk shows at most the limit |
| GeneratedText.LexShowsNoMore | formatters.go:75-160 | the reader shows at most as many UTF-16 units as the text has, for every text |
| GeneratedText.EveryChunkShowsWithin | formatters.go:312-373 | so every chunk of every text shows at most the limit, for every limit of at least 2 |
| GeneratedText.PlainChunksFit | formatters.go:312-373 | chunks of text without `&`, `<` and `>` fit the limit |
| Placeholders.CreateKeepsOrder | formatters.go:169-174 | a new placeholder keeps the store ordered: contents hold only earlier tokens |
| Placeholders.ReplaceKeepsExpansion | rich_message.go:79-84 | replacing one token everywhere keeps the full expansion and uses up a measure |
| Placeholders.Restore | rich_message.go:76-90 | the loop terminates for every map order and always returns the full expansion, with no stored token left |
| Placeholders.ExpandLocal | formatters.go:192-204 | tokens created later do not change the expansion of earlier text |
| CodeSpans.SpanListUnique | parser.go:135-211 | a text has exactly one list of code spans under the specification, so both copies of the scanner pick the same spans |
| CodeSpans.FindCloser | parser.go:153-190 | the forward search finds the first maximal run of exactly k backticks with no blank line before it, or there is none |
| CodeSpans.ShieldSpans | parser.go:466-524 | the scanner takes exactly the specified spans, copies everything else, and stores the contents in order of creation |
| CodeSpans.ShieldInlineCodeSpans | parser.go:135-211 | exactly the specified spans become tokens for escaped code elements; the rest is copied |
| CodeSpans.StripIff | parser.go:192-199 | the content of a span loses one blank at each end if and only if it has one there and something else between them |
| CodeElements.SpanReads | parser.go:192-202 | the element stored for a span reads as a code tag around exactly that content, character by character |
| Placeholders.EscapeAround | formatters.go:44-49 | escaping goes symbol by symbol and leaves tokens alone |
| CodeSpans.ShieldSpansRaw | parser.go:466-524 | the second copy takes exactly the same spans and stores them as written |
| CodeSpans.SpansRestore | parser.go:466-524 | expanding the shielded text gives the expansion of what was shielded |
| Fences.NormalisedAtBreak | parser.go:391-392 | each of the breaks CR LF, CR and LF, wherever it stands, becomes one newline and the text on either side is normalised on its own |
| Fences.NormalisedPlain | parser.go:391-392 | no carriage return is left, and a text without one is unchanged |
| Fences.SplitOfJoin | parser.go:394 | the lines are the only ones without a newline that join to the text |
| Fences.OpensIff | parser.go:405-426 | the lines that open a fence are exactly those of at most three blanks and three backticks or three tildes |
| Fences.FenceLineOpens | parser.go:405-426 | the fence has that character and the length of the whole run |
| Fences.ClosesIff | parser.go:429-439 | the lines that close a fence of n characters are exactly those of at most three blanks and n such characters with only more of them, blanks and tabs behind, up to white space around |
| Fences.BlockListUnique | parser.go:404-464 | a text has one list of fenced blocks: each begins at the first opening line after the one before and ends at its first closing line or the end |
| Fences.BlocksAre | parser.go:404-464 | the scanner takes the blocks of that list, each with exactly its lines |
| Fences.FirstCloseIsFirst | parser.go:425-453 | a fence ends at the first later line that closes it |
| Fences.ScanFences | parser.go:404-464 | the line loop replaces exactly the fenced blocks by one token line each and returns them in order, closing an open one at the end |
| Fences.ShieldFencedCodeBlocks | parser.go:32-127 | the HTML copy takes the same blocks and stores escaped pre/code elements |
| Fences.LanguageIs | parser.go:65-71 | the language of a block is the first word behind the whole run that opens it |
| CodeElements.BlockReadsIff | parser.go:91-101 | the element stored for a block reads as its language in the class and its code, character by character, between the tags, if and only if the language holds no double quote |
| CodeElements.BlockSurvives | formatters.go:75-160 | sanitising that element leaves the code under its two tags, the language in the class, and nothing open |
| Fences.BlockIsStored | formatters.go:169-178 | after both shields every fenced block is in the store as that element and expands to it |
| Fences.ShieldForHtml | formatters.go:169-178 | exactly the blocks of the text, and then exactly the spans of what is left, are replaced by tokens that stand for their elements; the store is ordered and the text holds only its tokens, for every input |
| Placeholders.PassesKeepShelter | formatters.go:180-204 | any sequence of passes that stores or rewrites existing text keeps the store ordered and leaves the expansion of everything shielded before them alone |
| Fences.ConvertToHtml | formatters.go:162-204 | both shields, any such passes and the restore loop: it ends, for every map order, with the full expansion, no token left, and every shielded piece of code as it was stored |
| Fences.RawBlockIsLines | parser.go:438-461 | a stored block is its own lines, plus the missing fence when it was never closed |
| Fences.FencesRestore | parser.go:404-464 | expanding the shielded lines gives back the lines, plus the missing fence |
| Fences.ShieldMarkdownCodeBlocksRaw | parser.go:383-527 | both shields together: the result expands to the text with its line breaks normalised as above, plus a newline and the opener's fence when the text ends inside one |
| Fences.ShieldAndRestore | rich_message.go:71-90 | shielding and restoring gives back that text, for every map order: every character and every line break, as a newline |
| Fences.ExactIffClosed | rich_message.go:71-90 | the round trip is exact if and only if every fence of the text is closed |
| Quotas.ParseUsage | account_pool.go:952-1014 | the nested loops compute the specified quota: the last bucket wins in each slot and a used-up weekly window switches off its 5-hour window |
| Quotas.SlotIff | account_pool.go:958-996 | which buckets report on a window: those of a group whose name contains the model family, gemini first, and whose window or id names it, the 5-hour one first |
| Quotas.LatestIs | account_pool.go:958-996 | the reading of a window is that of the last bucket in the whole report for it, and there is none if and only if no bucket reports on it |
| Quotas.UsageFollowsWeekly | account_pool.go:1000-1014 | a reported weekly window that is off or at 0 switches its 5-hour window off, with its own reset or else the weekly one; otherwise both are as reported |
| Quotas.RecoversIff | account_pool.go:1077-1081 | a refresh ends a cooldown if and only if no window is off, more than a twentieth of the 5-hour window is left and no used-up weekly window has its reset ahead |
| Quotas.WeeklyDecides | account_pool.go:1000-1014 | a used-up Gemini weekly bucket rests the account until exactly its reset if that is ahead, whatever 5-hour bucket is reported |
| Quotas.FiveHourDecides | account_pool.go:1056-1061 | an exhausted 5-hour bucket rests the account until its reset when the weekly window has quota left |
| Quotas.PauseAgrees | session.go:1591-1609 | a 429 handled at the same instant re-derives exactly the end a refresh orders, which always lies ahead |
| Accounts.WeeklyRest | account_pool.go:1045-1081 | refresh then 429: a non-frozen account rests until exactly the weekly reset; a frozen one keeps its state |
| Accounts.BeforeIsPrecedes | account_pool.go:679-711 | on sound accounts the comparator is the lexicographic order on (disabled, turns, quota, last use), so its clause for free accounts changes nothing |
| Accounts.StrictWeakOrder | account_pool.go:679-711 | the comparator is a strict weak order on sound accounts |
| Accounts.BeforeCanCycle | account_pool.go:679-711 | without the invariant on never-fetched accounts three accounts form a cycle |
| Accounts.StepKeepsInv | account_pool.go:544-891 | every operation keeps the pool invariants: in use implies a turn, frozen implies no turn and no cooldown, chat maps name registered accounts, assignments name no frozen account |
| Accounts.RunKeepsInv | account_pool.go:544-1275 | the invariants hold after any run of operations in any order |
| Accounts.FrozenStays | account_pool.go:790-840 | only Unfreeze, ingesting again or Delete ends a freeze, and no acquisition returns a frozen account |
| Accounts.FrozenThroughRun | account_pool.go:595-891 | over any run without those operations a frozen account stays frozen and is never acquired |
| Accounts.UnfreezeActivates | account_pool.go:818-840 | unfreezing always makes the account active |
| Accounts.AcquireTakesFirst | account_pool.go:642-726 | a rotating chat gets a healthy account that no healthy account precedes; that account gains one turn and nothing else changes but finished cooldowns and the chat's assignment |
| Accounts.AcquireSucceedsIff | account_pool.go:595-726 | a chat that is not locked gets an account if and only if one is healthy after the sweep |
| Accounts.CountPromises | account_pool.go:466-484 | a positive healthy count means the next acquisition at that instant succeeds for any chat that is not locked |
| Accounts.CooldownEnd | account_pool.go:604-639 | at the exact end of a cooldown a locked chat gets its account and no other chat does |
| AccountUse.LockThroughRun | account_pool.go:544-640 | over any run, from an accepted lock until an operation that ends it, every acquisition of the chat returns its account or an error |
| AccountUse.KeysAgreeIff | account_pool.go:486-491 | two chats share a key if and only if they have the same number and, up to white space around it, the same bot name; a blank name is the bare key |
| AccountUse.PinLocks | account_pool.go:544-559 | locking is refused for unknown and frozen accounts, and otherwise locks and assigns this chat and changes nothing else |
| AccountUse.LockedAcquires | account_pool.go:619-640 | a locked chat gets an error if and only if its account is frozen or its cooldown has not ended, and otherwise one turn of that account, which is now the last used |
| AccountUse.BareLockCounts | account_pool.go:619-623 | a chat of a bot without a lock of its own follows the lock of the bare chat |
| AccountUse.UnpinUnlocks | account_pool.go:562-572 | unlocking frees the chat and the bare chat it may have followed, and no other |
| AccountUse.KeepsAccount | account_pool.go:642-661 | a chat that is not locked stays on its account whenever that is free and its windows are not off |
| AccountUse.ReleaseUndoesAcquire | account_pool.go:595-744 | releasing an acquired account restores its turns; it is active again once it has none |
| AccountUse.ReacquiresSame | account_pool.go:595-744 | acquire, release, acquire: the same account again, however many others are less used, unless its windows are off by then |
| AccountUse.SwitchAssignsIff | account_pool.go:575-592 | switching assigns the account if and only if it is registered, not frozen and not resting |
| AccountUse.FreezeDisconnects | account_pool.go:790-815 | freezing zeroes turns and cooldown and takes the account from exactly the chats assigned to it, not from those locked to it |
| AccountUse.FrozenLockFails | account_pool.go:619-627 | which then get an error |
| AccountUse.UnfreezeUndoesFreeze | account_pool.go:790-840 | freezing and unfreezing leaves the account active, with no turns and no cooldown, and otherwise as it was |
| AccountUse.DeleteForgets | account_pool.go:843-878 | an account is deleted if and only if it is not in use and its home is inside; exactly the chats that referred to it lose the reference |
| AccountUse.RestLasts | account_pool.go:747-768 | a rest makes the account unfit until its duration, or a minute, is over, and fit again right after it unless its windows are off |
| AccountUse.RestedReturns | account_pool.go:604-726 | a chat that is not locked is served as soon as some account is past the end of its cooldown and not off, and by that account when no other is fit |
| AccountUse.UnlockedIsFit | account_pool.go:642-726 | a chat that is not locked never gets an account that is frozen, expired, in a cooldown that has not ended, or off |
| AccountUse.ErrorSaysWaitIff | account_pool.go:663-694 | the error says that all accounts cool down if and only if some account is in a cooldown or off; otherwise all are frozen or expired |
| AccountUse.ClearMakesFit | account_pool.go:771-787 | clearing a cooldown makes the account fit at once unless it is off, and changes nothing else |
| AccountUse.RefreshMoves | account_pool.go:1045-1085 | a refresh ends or starts a rest as it is judged, the end lying ahead, and leaves turns, errors and last use alone |
| AccountUse.IngestIs | account_pool.go:1174-1243 | ingesting changes one account: active with no cooldown once stored, turns and quota kept when it is known, no turns and no quota when it is new |
| AccountUse.IngestTwice | account_pool.go:1174-1243 | an e-mail that is ingested again, in whatever case, is the same account, and no two accounts ever share one |
| AccountPools.AccountPool.Acquire | account_pool.go:595-726 | the method over account objects refines the acquisition step |
| AccountPools.AccountPool.PickFirst | account_pool.go:679-713 | the selected candidate has no candidate before it |
| AccountPools.AccountPool.Release | account_pool.go:729-744 | refines the release step; other accounts and both chat maps are unchanged |
| AccountPools.AccountPool.MarkCooldown | account_pool.go:747-768 | refines the cooldown step: frozen accounts are immune, a non-positive duration means a minute, turns are zeroed |
| AccountPools.AccountPool.ClearCooldown | account_pool.go:771-787 | refines the clearing step and refuses unknown and frozen accounts |
| AccountPools.AccountPool.Freeze | account_pool.go:790-815 | refines the freeze step, including the loop that drops assignments |
| AccountPools.AccountPool.Unfreeze | account_pool.go:818-840 | refines the unfreeze step and refuses accounts that are not frozen |
| AccountPools.AccountPool.Delete | account_pool.go:843-891 | refines the delete step: refused while in use or for a directory outside, otherwise no chat map names the account any more |
| AccountPools.AccountPool.Pin | account_pool.go:544-559 | refines the pin step and refuses frozen accounts |
| AccountPools.AccountPool.Unpin | account_pool.go:562-572 | afterwards neither the scoped nor the bare key of the chat is locked |
| AccountPools.AccountPool.Switch | account_pool.go:575-592 | refines the switch step and refuses frozen and resting accounts |
| AccountPools.AccountPool.CountHealthy | account_pool.go:466-484 | the loop returns the number of healthy accounts |
| AccountPools.AccountPool.Refresh | account_pool.go:1045-1085 | refines the refresh step with the parsed usage |
| AccountPools.AccountPool.Reap | account_pool.go:1260-1280 | refines the sweep and reports exactly the accounts that recovered |
| AccountPools.AccountPool.Ingest | account_pool.go:1174-1243 | an account with that e-mail is reactivated, otherwise a new one is registered under the first free id for the e-mail |
| Identity.SlugShape | account_pool.go:1120-1139 | an id derived from an e-mail is never empty, has at most 32 characters, all safe in a path, and does not begin with a mark |
| Identity.SameEmailSameSlug | account_pool.go:1120-1139 | addresses that differ only in case give the same id |
| Identity.SlugOfPlain | account_pool.go:1120-1139 | a local part that is an id already is the id |
| Identity.FreeId | account_pool.go:1187-1196 | the suffix counter terminates on any finite pool and returns the first free candidate |
| Identity.CandidateInjective | account_pool.go:1187-1196 | different counters give different ids |
| Migration.RenameFollows | account_pool.go:377-391 | a rename to an unused id loses no account and moves no chat to another account |
| Migration.ResolvesAlike | account_pool.go:377-391 | every chat, scoped or not, resolves to the same account before and after |
| Migration.LoadStepKeeps | account_pool.go:345-395 | one turn of the loading loop keeps the pool invariants and keeps ids and keys in step |
| Migration.LoadedMoves | account_pool.go:345-395 | an account that gets another id gets that id's directory, unless it has none; one that is not legacy, or has the id its e-mail gives, keeps both |
| AccountPools.AccountPool.LoadState | account_pool.go:343-405 | for every iteration order: same account objects, every chat resolves to the same object, ids match keys, finished cooldowns end, a legacy id is left only where the e-mail gives it |
| Sessions.AlwaysInStep | session.go:747-947 | in every interleaving the session is alive exactly when a process is installed, and that process belongs to the current generation |
| Sessions.EpochCheckRedundant | session.go:926-931 | the generation check of the exit handler adds nothing to its process check |
| Sessions.GoneForGood | session.go:915-947 | a killed or superseded process is never installed again and its exit handler changes nothing whenever it runs |
| Sessions.KillMissesWindow | session.go:341-363 | a Kill ends the session until the next start() if and only if it did not land inside a start() under way |
| Sessions.AttemptsUseBudget | session.go:1401-1667 | every retry or failover, for any sequence of errors, uses up 3*(3-failovers)+(2-retries) |
| Sessions.AllowedIff | session.go:1398-1588 | when each attempt is allowed: fewer than two retries, no failover before a stream failover, and before a quota failover fewer than three failovers and fewer than there are healthy accounts, if there are any |
| Sessions.FailoversAtMostHealthy | session.go:1398-1667 | while quota failovers see at most h healthy accounts, h at least one, a turn moves at most h times and no failover is made once h were; it never moves more than three times |
| Sessions.AtMostElevenRestarts | session.go:1401-1667 | one turn is restarted at most 11 times |
| Sessions.ErrorsRestartAtMostEleven | session.go:1365-1735 | the attempts over all the error results of a turn, each handled with the budget the one before it left, are at most 11 together |
| Sessions.ElevenRestartsHappen | session.go:1401-1667 | a sequence of errors with 11 restarts exists |
| Sessions.FailoverMovesOneLease | session.go:1458-1510 | for a chat that is not locked: another account gains one turn, the old one rests without turns, releasing it is a no-op, the new one needs no second lease, all others at most end a cooldown |
| Sessions.LeaseMoved | session.go:1588-1667 | the same from the error to the restarted session, which then holds exactly one lease |
| Sessions.ReleaseTakesIff | account_pool.go:729-744 | one release takes the lease of another chat if and only if the session holds none and the account has a turn |
| Sessions.StartHoldsOne | session.go:785-823 | a start() that takes an account holds one lease of it, and the leases of the others are what they were |
| Sessions.RetryDropsLease | session.go:1411-1436 | on a working account a stream retry is a Kill that takes no lease back: it releases the account of a running turn, whether or not the session holds a lease of it |
| Sessions.RetriesGiveBack | session.go:1411-1436 | k retries give back k leases of the account, k - 1 when no turn was running at the first |
| Sessions.TurnsAfterGivingUp | session.go:1401-1524 | over the errors of a whole turn as OnError handles them: severed streams resumed by retries, then one that is given up without another account to try; the account's turns at the end, and other chats lose leases if and only if more were given back than the turn held and the account had more turns than that; how many they lose |
| Sessions.OneLeaseOnly | session.go:1906-1967 | in every interleaving with other chats, a session that took one lease holds it exactly as long as none of its turns has ended well or was retried and no operation on the pool has left the account without turns; once gone it does not come back |
| Sessions.UnusableUntilEnd | session.go:785-800 | an account left resting is unusable to start() exactly until the rest ends, a frozen one at any time |
| Sessions.LaterReleasesTake | session.go:1964-1966 | so a release takes the lease of another chat if and only if the account has a turn and the session's own lease is gone: given back before, or lost when the account stood without turns |
| Sessions.CooledElsewhereTakes | account_pool.go:747-787 | a cooldown by another chat, cleared again, takes the session's lease for good: the first turn it ends then takes the only lease of a third chat |
| Sessions.CooledElsewhereHappens | account_pool.go:595-787 | such a run exists |
| Sessions.LossIsShared | account_pool.go:729-744 | two sessions on one account agree: when one releases a lease it does not hold, the other loses its own if and only if the account had no turn beyond it |
| Sessions.EndedTurnsTake | session.go:1906-1967 | k turns that end well on one account give back k leases where one was taken; how many other chats lose, and that they lose some if and only if k and the turns of the account are both at least two |
| Sessions.SecondTurnTakes | handlers.go:1472-1478 | the second turn of a live session takes the lease of another chat when it ends |
| Sessions.FailedTryRests | session.go:1458-1462 | when another account was tried and none could be had, the account rests without turns |
| Sessions.HandledBacked | session.go:1365-1735 | whatever one error result leads to, the pool invariants hold and the session never counts more leases as its own than its account has turns |
| Sessions.LifeBacked | session.go:1906-1967 | the same over every interleaving of turns and the operations of others |
| Sessions.TextSurvivesIff | session.go:1174-1180 | the text survives a stream retry or failover if and only if the turn has a message or there was no text |
| Sessions.TextIsLost | session.go:1174-1180 | text streamed at message 0 is lost by the first retry |
| Sessions.FailedStreamFailoverBalances | session.go:1458-1510 | a stream failover whose start fails leaves the new account, once the session is killed, with the turns it had |
| Sessions.FailedRotationReleasesTwice | session.go:1625-1698 | from the failing branch itself and the Kill that parks the session: the new account ends with one turn fewer than before the error, if it had any |
| AgySessions.AgySession.Kill | session.go:341-368 | clears the turn, keeps conversation and account, and gives the lease back only while a turn runs |
| AgySessions.AgySession.Exited | session.go:915-947 | the exit handler clears the session for the installed process and changes nothing for any other |
| AgySessions.AgySession.Bind | session.go:785-823 | start() acquires an account only when the session has none or an unusable one |
| AgySessions.AgySession.Start | session.go:747-866 | both critical sections with the account part between them; a live session is left alone |
| AgySessions.AgySession.EndTurn | session.go:1906-1967 | the end of a turn that went well: the turn is cleared but for the mark that its text was cut short, and a lease is given back whether or not one is held |
| AgySessions.AgySession.RetryStream | session.go:1401-1453 | one retry: message and conversation are kept, one retry is used, the text is kept up to the reader's reset, and the lease is handled as Sessions.Retries says |
| AgySessions.AgySession.FailOverStream | session.go:1458-1510 | one failover per turn, never for a locked chat; message and conversation are kept, the text up to the reader's reset; the lease moves, or the pool is as the refused or failed acquisition leaves it |
| AgySessions.AgySession.FailOverQuota | session.go:1563-1667 | only with fewer than three failovers made and fewer than there are healthy accounts, if there are any; message and conversation are kept, the text is lost, the lease moves; when it fails, exactly what became of the pool: untouched, rested, or, if the start failed, moved and released once |
| AgySessions.AgySession.GiveUp | session.go:1515-1524 | an unrecoverable stream error clears the turn first, so this Kill gives no lease back and the pool is unchanged |
| AgySessions.AgySession.OnError | session.go:1365-1735 | one error result: a dead or idle session ignores it unchanged; otherwise the turn goes on with less budget, its message, its conversation and its text up to the reset, or the session is dead and idle; and in every case what became of the account pool, step by step (Sessions.Handled) |
| GlobalPools.GlobalPool.Acquire | account_pool.go:595-726 | the shared pool: the acquisition step, with the invariants kept |
| GlobalPools.GlobalPool.Release | account_pool.go:729-744 | the release step |
| GlobalPools.GlobalPool.MarkCooldown | account_pool.go:747-768 | the cooldown step |
| GlobalPools.GlobalPool.Refresh | account_pool.go:1045-1085 | the refresh step with the parsed usage |
| GlobalPools.GlobalPool.GetAccount | account_pool.go:453-463 | a copy of the account, or nothing |
| Dispatch.StepInv | handlers.go:1609-1667 | every step keeps the dispatcher invariants |
| Dispatch.RunInv | handlers.go:1609-1667 | they hold in every interleaving of dispatchers, workers and idle timeouts |
| Dispatch.OneWorker | handlers.go:1626-1656 | at most one live worker per chat |
| Dispatch.NeverOnDeadChannel | handlers.go:1659-1666 | no update is put on a channel whose worker has exited |
| Dispatch.DirectIff | handlers.go:1619-1666 | in every reachable state an arriving update runs in a goroutine of its own if and only if its chat is 0 or has a channel with a hundred updates, whatever the worker does |
| Dispatch.QueuedAtEnd | handlers.go:1624-1660 | otherwise it goes to the end of the chat's live channel, or on a new one with its own worker when there is none; no worker and no other channel changes |
| Dispatch.TogetherOnlyIfFull | handlers.go:1609-1667 | in every interleaving two updates of one chat are in progress together only if the chat is 0 or one of them arrived at a full channel |
| Dispatch.IdleWorkerLeavesIff | handlers.go:1646-1655 | an idle worker leaves, and its chat is forgotten, if and only if nothing was queued by the time it holds the lock; otherwise it goes on with all of it |
| Dispatch.AtMostOnceInOrder | handlers.go:1626-1656 | an update is handled at most once, and a chat's queued updates in the order they were queued, across worker generations |
| Dispatch.QuietMeansAllHandled | handlers.go:1609-1667 | once nothing is pending every dispatched update was handled exactly once |
| Dispatch.NoUpdateStuck | handlers.go:1626-1656 | an update that is not handled yet always has a step that can happen |
| Dispatch.EveryUpdateCanFinish | handlers.go:1609-1667 | from every reachable state the workers and goroutines alone can bring about a quiet one, in which every update dispatched so far was handled exactly once |
| Dispatchers.Dispatcher.DispatchUpdate | handlers.go:1609-1667 | refines the arrival step; the update runs directly if and only if its chat is 0 or had a full channel |
| Dispatchers.Dispatcher.ReceiveTask | handlers.go:1631-1636 | the worker takes the oldest queued update of its channel |
| Dispatchers.Dispatcher.FinishTask | handlers.go:1636-1643 | the update is recorded as handled for the worker's chat and the worker waits again |
| Dispatchers.Dispatcher.LeaveIfIdle | handlers.go:1646-1655 | refines the eviction step: under the lock the worker leaves only an empty queue |
| Watchdog.FindRoot | subprocess_watchdog.go:93-108 | the parent walk ends on every table, cyclic or not, and finds the nearest root or proves there is none |
| Watchdog.FindStoppedDescendants | subprocess_watchdog.go:74-111 | reports each stopped process once, if and only if it is a root or its parent chain reaches one, and names the nearest |
| Watchdog.NearestUnique | subprocess_watchdog.go:93-108 | a process has at most one nearest root |
| Watchdog.KilledIff | subprocess_watchdog.go:144-179 | a pid is killed if and only if every completed scan over at least the grace period reported it, with live sessions throughout and no kill in between |
| Watchdog.Reaper.Reap | subprocess_watchdog.go:118-180 | one scan: no sessions clear the record, a failed listing changes nothing, and otherwise exactly the reported pids first seen at least the grace period ago are killed, the other reported ones are remembered from that time, and all others are forgotten |

## Left out

- Chunks.SplitHTMLChunks: the golang.org/x/net tokenizer itself is not part of this model; what is
  asked of it is asked for the runs of the text at hand, and Html.Lex meets it on generated text.
- Splitter.PartsAligned: a tag with a blank, such as every link, is not safe, and a paragraph longer
  than the limit that holds one is not covered; the code can cut it. Paragraphs that fit are.
- Chunks.RawChunksAligned: a blank line inside a segment, such as an attribute value with two
  newlines, is not covered: the code can split the tag there (Chunks.BlankLineCutsTag).
- ChunkLengths.ChunksWithin: one way only; the exact condition is ChunkLengths.TextChunksFitIff.
- SanitizedText.TextReadsBackIff: carriage returns and NUL from character references, and the raw
  text of elements the sanitiser never writes, are outside the reader.
- SecondPass.UnchangedIff: the kept attributes are asked to read back; two values of one attribute
  are kept apart by the tokenizer of the code and not by the reader here.
- Sessions.OneLeaseOnly: which of several sessions loses its lease to a release that nobody had
  taken is not a fact of the code; a session's own counts as lost once no turn is left for it.
- AgySessions.AgySession.EndTurn: sending the response, the transcript fallback and the voice reply
  come before and after.
- Sanitizer.BalanceAndSanitize: tag and attribute names are lower-cased over ASCII letters only.
- CodeSpans.ShieldSpans: one method with the stored content as a parameter stands for the two
  copies of the scanner; the copies work on bytes, the model on characters.
- Fences.ScanFences: one method stands for the two copies of the line loop; the fence variables
  are kept in one record.
- CodeElements.SpanReads: for spans that hold no token; a span around a fenced block holds that
  block's element inside its code tags, as in the code.
- Fences.ConvertToHtml: inline formatting, thinking blocks, tables and the block parser between
  shielding and restoring are the passes; of their regular expressions the model asks only that
  they use existing text.
- AccountPools.AccountPool.Acquire: the chat id and bot name are the key itself, not its decimal
  spelling; `sort.Slice` is the choice of any first candidate.
- AccountPools.AccountPool.LoadState: nil entries, moving home directories and symbolic links are
  not modelled; a home directory is the accounts directory and the id joined by a slash.
- AccountPools.AccountPool.Ingest: reading the token and asking for the e-mail come before the
  modelled part; whether the files could be written is a flag; e-mail folding is over ASCII.
- AccountPools.AccountPool.Refresh: running the usage command and decoding its JSON come before.
- Accounts.StepKeepsInv: says nothing like "turns equal leases", which is false: callers may
  release more often than they acquire, and cooldown and freeze zero the count.
- AgySessions.AgySession.OnError: the recovery branches run without a concurrent start or Kill
  between their steps and at one instant; interleavings of the critical sections themselves are
  covered by Sessions.AlwaysInStep. A bot without a pool has no failover.
- Sessions.FailoverMovesOneLease: for the account the session is bound to; a retry whose start
  fails may already have bound another one.
- Dispatch.AtMostOnceInOrder: the order is that of queued updates; overflow updates run in
  goroutines of their own and may overtake them, as in the code.
- Watchdog.KilledIff: the time of a scan is read once, after the listing; reading /proc and
  sending signals are outside.
- Persistence of the pool, Telegram, HTTP, SQLite, environment building, process spawning, cards,
  commands, metrics, voice, delivery tiers and the harvester are not part of this model.
