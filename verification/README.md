# Verification of the build-gating scanners and the category-tree model

The repository's checks rest on scanners and parsers written by hand and on an executable model of the
category tree. This project models them in Dafny and proves what their callers rely on. Each loop of the
source is a method with the same branches, proved against a specification; the theorems are about that
specification and hold for every text, every list and every run.

| Module | Models |
|---|---|
| `JsAutomaton`, `JsScanner`, `JsSpans`, `JsLiterals`, `JsNesting` | `jsScan`: a reference automaton, the scanner that jumps over words and comments, the order and exactness of the spans, the nesting of templates |
| `JsBlanking`, `JsSimulation` | `jsComments`, `jsCode`, `jsMask`, and why scanning a blanked source is safe |
| `JsTokens`, `JsRoundTrip` | sources printed from token trees, and that scanning them finds the tree's spans |
| `ObjectKeys`, `ObjectTokens`, `ObjectKeysRoundTrip`, `ObjectKeysMisread` | `readObjectKeys`, `endOfRegex`: literals printed from their entries, what is read from them, and where that goes wrong |
| `RustBlanker`, `HandlerList`, `HandlerAttributes`, `HandlerRoundTrip` | `blankRustComments`, `stripRustAttributes`, `parseRegisteredCommands` |
| `TopLevelSplit`, `SplitTrees`, `Brackets`, `BracketTrees` | `splitTopLevel`; `matchingClose`, `enclosingOpen` |
| `Verdict`, `VerdictProblems`, `PayloadVerdict` | `findProblems`, `summaryLines`, what is told of which site, and the way from a payload's text to the verdict |
| `Categories`, `CategoryLoops`, `CategoryLists` | `applyReparents`: `category_reparent`, `category_set_order`, runs of both, loops, and which list a category is in |
| `Scrubber`, `ScrubRoundTrip` | `scrub`, and what it leaves of printed sources |
| `ToolHistory` | `complete` |
| `Chars`, `Wrappers` | character classes, line counting, `indexOf`, `trim`; optional values |

Text is `seq<char>`.

Where the code and what is written about it differ, the model follows the code:

- "Every position unchanged" (scripts/check-renderer-hygiene.js:171-175) fails by one character: when an
  escape runs past the end of a literal at the end of the source, `jsMask` appends one blank
  (`JsBlanking.OverrunIsSpan` says when, `JsSimulation.FinalBackslashGrowsMask` shows one).
- An escaped newline in a string or a regular expression makes the masked text scan differently
  (`JsSimulation.MaskKeepsLiterals` says exactly when) and makes `scrub` lose a line
  (`Scrubber.ScrubKeepsLines`, `Scrubber.EscapedNewlineLosesLine`).
- A key that cannot be read "is never dropped quietly" (scripts/check-ipc-args.js:251-260) except when an
  accessor, or a method behind a modifier, is misread: `{get [x](){}}` and `{get 'k'(){}}` give the key
  `get`, `{get/**/x(){}}` gives `getx`. `ObjectKeysRoundTrip.NothingDroppedQuietly` says exactly when, for
  literals whose slashes and templates the reader takes for what they are.
- It does not always. A division after `++`, `--` or `}` is taken for a regular expression, a regular
  expression after a word or `)` for a division; `ObjectTokens.DivisionTaken` and `ObjectTokens.RegexTaken`
  say exactly when each is taken right, and `ObjectKeysMisread.DivisionMisread` and
  `ObjectKeysMisread.RegexAfterWordMisread` show a key lost. A template with a backtick in its
  substitutions is cut there, if and only if that is not escaped (`ObjectTokens.TemplateIsWhole`); that can
  make up a key (`ObjectKeysMisread.NestedTemplateMisread`) and need not
  (`ObjectKeysMisread.NestedTemplateMayNotMatter`).
- A division is promised after a name, a number or a closing bracket (scripts/check-renderer-hygiene.js:55-58),
  but `jsScan` takes one after `}`, a string, a template or a postfix operator for the start of a regular
  expression (`JsRoundTrip.SlashTaken` says exactly when, `JsRoundTrip.DivisionAfterBraceMisread` shows one).
- Attributes are to be stripped with their brackets balanced (scripts/check-ipc-args.js:171-173), but the
  brackets in their strings count: `#[doc = "]"]` ends early, and the list with it
  (`HandlerAttributes.AttributeIsWhole`, `HandlerRoundTrip.UnevenAttributeLosesNames`).
- `category_set_order` promises to refuse a partial list (scripts/check-keys-ui.js:1437-1442), but applies
  that rule only when the scope is not empty (`Categories.PartialOrderWithoutScope`).

## Model

| member | source | states |
|---|---|---|
| JsRoundTrip.RoundTrip | scripts/check-renderer-hygiene.js:60-153 | Print, then scan: for every token tree (words, signs, strings, regular expressions, comments, templates whose substitutions are again trees, to any depth) in which each division stands behind a name that is none of the fourteen keywords or behind `)` or `]`, and each regular expression behind any other token or at the start, the spans of the printed text are exactly the tree's literals and comments, with their lines and texts. |
| JsRoundTrip.SlashTaken | scripts/check-renderer-hygiene.js:133-137 | A `/` behind a token is a division for the scanner if and only if that token is a name that is none of the fourteen keywords, a `)` or a `]`; behind any other, and at the start, it opens a regular expression. |
| JsRoundTrip.DivisionAfterBraceMisread | scripts/check-renderer-hygiene.js:133-137 | A concrete source in which a division after a closing brace is taken to open a regular expression. |
| JsRoundTrip.TokenScans | scripts/check-renderer-hygiene.js:100-151 | Any one token, printed anywhere in any source where the scanner stands in code and takes its slashes for what they are, is read as itself: the state after it is the one the tree predicts and exactly its own spans are added. |
| JsRoundTrip.TokensMeant | scripts/check-renderer-hygiene.js:47-58 | In every tree whose divisions and regular expressions stand where the tokens before them have them, the scanner takes each for what it is. |
| JsRoundTrip.SubsScan | scripts/check-renderer-hygiene.js:73-83 | The substitutions of a template, at any nesting, are read back with every piece of text between them, and the scanner leaves the template in the state it entered with. |
| JsScanner.JsScan | scripts/check-renderer-hygiene.js:60-153 | The jumping scanner reports the comments and literals of the one-character-at-a-time automaton, on every source. |
| JsScanner.Scanner.Scan | scripts/check-renderer-hygiene.js:100-151 | The main loop ends with the whole source read and both lists complete; every turn moves on. |
| JsScanner.Scanner.TemplateText | scripts/check-renderer-hygiene.js:73-83 | From inside a template's text to its closing backtick or into a substitution: the state, the depth pushed and the span added are the automaton's. |
| JsScanner.Scanner.RegexLiteral | scripts/check-renderer-hygiene.js:84-99 | A regular expression with its classes, escapes and flags ends where the automaton ends it, closed or cut off at the line. |
| JsScanner.Scanner.StringLiteral | scripts/check-renderer-hygiene.js:117-125 | A string ends at its quote, at the line's end or past the end of the source after an escape, as in the automaton. |
| JsScanner.Scanner.BlockCommentText | scripts/check-renderer-hygiene.js:110-116 | The comment found with `indexOf` is the one the automaton reads character by character, newlines counted. |
| JsScanner.Scanner.LineCommentText | scripts/check-renderer-hygiene.js:103-109 | A line comment is reported up to the newline, which stays in code. |
| JsScanner.Scanner.TemplateLiteral | scripts/check-renderer-hygiene.js:126-132 | A backtick, or the `}` that closes a substitution, goes (back) into a template's text with depth and stack undone. |
| JsScanner.Scanner.WordText | scripts/check-renderer-hygiene.js:139-146 | Skipping a whole word leaves the state that reading it letter by letter leaves. |
| JsAutomaton.BlockCommentRun | scripts/check-renderer-hygiene.js:110-116 | Every state of the automaton between a `/*` in code and the first `*/` after it, and the one comment that results. |
| JsSpans.SpansInOrder | scripts/check-renderer-hygiene.js:100-153 | In every source comments and literals are pairwise disjoint, ordered and within bounds (an end past the source only after a final backslash); each comment has the line of its start, ends at the first thing that can end it, and has the text between its delimiters. |
| JsLiterals.LiteralsRead | scripts/check-renderer-hygiene.js:73-125 | In every source each reported literal begins behind the character that opens it and ends at the first unescaped thing that ends its kind (quote or newline; `/` outside a class or newline; backtick or substitution), else at the end of the source, one further when that is escaped. |
| JsSpans.CommentsRead | scripts/check-renderer-hygiene.js:103-116 | At every moment of every run: what has been seen of the open comment, and every comment reported so far is exact. |
| JsSpans.SpansAreKinds | scripts/check-renderer-hygiene.js:60-153 | A position lies in a reported comment (literal) if and only if the automaton reads it as comment (text). |
| JsSpans.PlacedAt | scripts/check-renderer-hygiene.js:60-153 | The invariant behind the order: closed spans end before the open one starts, and nothing is open at the end of the source. |
| JsNesting.NestedAt | scripts/check-renderer-hygiene.js:68-83 | In every run the stack of resume depths is strictly increasing and its top is below the depth. |
| JsNesting.CountedAt | scripts/check-renderer-hygiene.js:68-83 | The stack of absolute depths says the same as one brace counter per open substitution. |
| JsNesting.ResumesAtOwnBrace | scripts/check-renderer-hygiene.js:126-132 | A `}` in code returns to template text if and only if the innermost open substitution has no open brace of its own. |
| JsNesting.SubstitutionStaysOpen | scripts/check-renderer-hygiene.js:72-83 | While the code braces since a `${` are unbalanced the substitution stays on the stack and the depth counts them. |
| JsNesting.SubstitutionCloses | scripts/check-renderer-hygiene.js:126-132 | The stack shrinks below a `${` exactly at the first `}` that balances it, and there stack, depth and template text are restored. |
| JsBlanking.JsComments | scripts/check-renderer-hygiene.js:156-158 | The comments of the source. |
| JsBlanking.JsCode | scripts/check-renderer-hygiene.js:161-169 | The pieces joined in the loop are the pointwise blanking of comment characters. |
| JsBlanking.JsMask | scripts/check-renderer-hygiene.js:176-183 | The overwriting loop over all spans is the pointwise blanking of comment and literal characters by the automaton; one blank is appended exactly when an escape runs past the end. |
| JsBlanking.OverrunIsSpan | scripts/check-renderer-hygiene.js:176-183 | A span covers the position after the last exactly when the source ends in an unescaped backslash inside a literal. |
| JsBlanking.CoveredIsBlanked | scripts/check-renderer-hygiene.js:176-183 | The union of the reported spans is the set of positions the automaton does not keep, also one past the end. |
| JsSimulation.FinalBackslashGrowsMask | scripts/check-renderer-hygiene.js:176-183 | A concrete source of two characters whose masked text has three. |
| JsSimulation.CodeSimulates | scripts/check-renderer-hygiene.js:161-169 | The run over `jsCode(s)` simulates the run over `s`, state by state and span by span, with comments read as spaces. |
| JsSimulation.CodeKeepsTheRest | scripts/check-renderer-hygiene.js:160-169 | `jsCode` keeps length, every newline and every literal span, and leaves no comment. |
| JsSimulation.CodeIdempotent | scripts/check-renderer-hygiene.js:161-169 | `jsCode(jsCode(s)) == jsCode(s)` for every source. |
| JsSimulation.MaskOfCode | scripts/check-renderer-hygiene.js:161-183 | The passes agree: `jsMask(jsCode(s)) == jsMask(s)` for every source. |
| JsSimulation.MaskSimulates | scripts/check-renderer-hygiene.js:176-183 | The run over the masked text simulates the run over the source as long as no string or regular expression holds an escaped newline. |
| JsSimulation.MaskScans | scripts/check-renderer-hygiene.js:171-183 | Then the masked text has no comments and the literals of the source, and every position is classified as before. |
| JsSimulation.MaskKeepsLiterals | scripts/check-renderer-hygiene.js:171-183 | Exactly when: the masked text has the source's literal spans if and only if no string or regular expression holds an escaped newline (templates may). |
| JsSimulation.MaskIdempotent | scripts/check-renderer-hygiene.js:176-183 | `jsMask(jsMask(s)) == jsMask(s)` without such a newline, a final backslash included. |
| JsSimulation.EscapedNewlineUndoesMask | scripts/check-renderer-hygiene.js:120-122 | A concrete source with one, for which masking twice differs from masking once. |
| JsSimulation.EscapedNewlineMayNotMatter | scripts/check-renderer-hygiene.js:120-122 | A concrete source with one that is still masked idempotently: the guard is exact for the spans, sufficient for idempotence. |
| ObjectKeysRoundTrip.ObjectKeysRoundTrip | scripts/check-ipc-args.js:251-316 | Print, then read: from every printed literal (plain, shorthand, quoted, computed, numeric and spread entries, methods, accessors and modifiers with plain, computed or quoted names; values with strings, comments, divisions, regular expressions, templates and nested brackets) whose regular expressions stand behind one of the listed signs or a block, whose divisions stand elsewhere and whose substitutions hold no unescaped backtick, exactly the keys found in each entry are read in order, `end` is the closing brace, `unreadable` is the first reason and set if and only if some unreadable key is not misread, and a spread is never missed. |
| ObjectKeysRoundTrip.NothingDroppedQuietly | scripts/check-ipc-args.js:251-260 | On such literals the promise holds - the readable keys are found, and no others, and an unreadable one is reported - if and only if no entry is misread: an accessor, or a method behind a modifier, whose text before its computed or quoted name, or without its comments, is a plain name. |
| ObjectKeysRoundTrip.RegexValueSkipped | scripts/check-ipc-args.js:230-291 | A value that is, or holds, a regular expression right behind its colon, a `(`, `[`, `,` or `=` is skipped whole, whatever quotes, commas and brackets it holds, and the keys after it are found. |
| ObjectKeysRoundTrip.PushesMixed | scripts/check-ipc-args.js:267-271 | Words behind a quoted key make it no key, and are the reason together with it. |
| ObjectKeysMisread.ComputedAccessorMisread | scripts/check-ipc-args.js:293-299 | `{get [x](){}}` is read as the key `get`, and nothing is reported. |
| ObjectKeysMisread.QuotedAccessorMisread | scripts/check-ipc-args.js:293-299 | `{get 'k'(){}}` likewise. |
| ObjectKeysMisread.JoinedAccessorMisread | scripts/check-ipc-args.js:289-290 | `{get/**/x(){}}` is read as the key `getx`: a comment leaves no space behind. |
| ObjectKeysMisread.NestedTemplateMisread | scripts/check-ipc-args.js:283-298 | A concrete template in a substitution of a template: the inner text is read as code and makes up a key. |
| ObjectKeysMisread.NestedTemplateMayNotMatter | scripts/check-ipc-args.js:283-298 | A concrete nested template that is cut elsewhere and yet leaves the keys as they are. |
| ObjectKeysMisread.DivisionMisread | scripts/check-ipc-args.js:230-233 | `{a:i++/2,b:1/1}`, with neither accessor, regular expression nor template, is read to its brace with the key `b` lost and nothing reported. |
| ObjectKeysMisread.RegexAfterWordMisread | scripts/check-ipc-args.js:230-233 | A concrete regular expression after a word: it is taken for a division, the next key is lost and the reader runs past the end. |
| PayloadVerdict.SiteIsRight | scripts/check-ipc-args.js:622-637 | For a printed payload read as meant and without a misread entry the verdict is that on the payload as printed: command known and registered, every key readable, no dots anywhere in the literal, every printed key expected and every required one printed. |
| PayloadVerdict.SiteVerdictIs | scripts/check-ipc-args.js:622-637 | The verdict on every printed payload read as meant, misread entries included: its site is right if and only if the command is known and registered, the reader has no reason to give and sees no dots, every key it finds is expected and every required one is found. |
| PayloadVerdict.PrintedCallsAreRight | scripts/check-ipc-args.js:622-725 | From the payload's text to the summary: when no problem is found and every name is said to be checked, every site with such a payload is right as printed. |
| PayloadVerdict.MisreadPayloadPasses | scripts/check-ipc-args.js:622-637 | A concrete call whose accessor passes for the required key `get`. |
| ObjectKeysRoundTrip.EntriesGo | scripts/check-ipc-args.js:281-314 | The walk over any list of entries read as meant, up to the closing brace, adds their keys and the first reason to what was known before. |
| ObjectTokens.QuietToks | scripts/check-ipc-args.js:281-314 | Inside a value, a computed key or a spread no run of tokens that the reader takes for what they are changes the keys, the reason or the depth, whatever it holds. |
| ObjectTokens.DivisionTaken | scripts/check-ipc-args.js:289-292 | A printed division behind a token is taken for one, alone, if and only if that token is neither one of the signs listed nor a block. |
| ObjectTokens.RegexTaken | scripts/check-ipc-args.js:237-249 | A printed regular expression behind a token is taken for one, whole, in one turn, if and only if that token is one of the signs listed or a block. |
| ObjectTokens.TokensMeant | scripts/check-ipc-args.js:230-233 | In all tokens whose slashes stand where the tokens before them have them, the reader takes each for what it is. |
| ObjectTokens.RegexOnLine | scripts/check-ipc-args.js:235-249 | A regular expression never goes on behind a newline that no backslash stands before, closed or not. |
| ObjectTokens.UnclosedNoteRunsOff | scripts/check-ipc-args.js:289-290 | A comment that is not closed takes the reader past the end of the source. |
| ObjectTokens.TemplateIsWhole | scripts/check-ipc-args.js:283-298 | A printed template, with any code in its substitutions, is taken to end at its own closing backtick if and only if its substitutions hold no unescaped backtick; wherever it is taken to end, the reader goes on behind it. |
| ObjectTokens.RegexGoes | scripts/check-ipc-args.js:237-249 | A regular expression literal where the reader expects one is skipped whole, with the quotes, brackets and slashes in it. |
| ObjectKeys.ReadObjectKeys | scripts/check-ipc-args.js:261-316 | The loop computes the specification walk on every source and position, malformed literals included. |
| ObjectKeys.PlainNamesAre | scripts/check-ipc-args.js:273 | A plain name, character by character: letters, digits, `_` and `$`, with no digit first. |
| ObjectKeys.KeyReader.Run | scripts/check-ipc-args.js:281-314 | The loop over the walker's variables, strings, comments and regular expressions skipped. |
| ObjectKeys.EndOfRegexAt | scripts/check-ipc-args.js:237-249 | The index of the last character of the literal, flags included, escapes and classes skipped, also unclosed or cut off at the end. |
| RustBlanker.BlankRustComments | scripts/check-ipc-args.js:141-169 | The loop's text is the pointwise blanking by a one-character automaton. |
| RustBlanker.BlankingConserves | scripts/check-ipc-args.js:137-169 | Blanking keeps length, the newlines before every position and every character of a string literal, and is idempotent. |
| HandlerRoundTrip.HandlerListRoundTrip | scripts/check-ipc-args.js:194-228 | Print, then parse: a handler list printed with comments of any text and attributes around its entries - with comments, escapes and brackets in their strings, as long as each is whole - gives back the last segment of a path if and only if that is made of lower-case letters, digits and underscores with no digit first; without its closing bracket it gives null. |
| HandlerRoundTrip.SnakeCaseIsCommand | scripts/check-ipc-args.js:218 | Words of lower-case letters and digits joined by underscores, the first beginning with a letter or empty, are a command name. |
| HandlerAttributes.AttributeIsWhole | scripts/check-ipc-args.js:171-192 | An attribute ends at its own `]`, and is stripped whole, if and only if its brackets as the code counts them (those in strings included, comments blanked) first balance there; then the list goes on behind it at the depth it had. |
| HandlerRoundTrip.UnevenAttributeLosesNames | scripts/check-ipc-args.js:174-227 | A concrete list with a `]` in an attribute's string: its command is lost, and the list is not null. |
| HandlerAttributes.AttributeBlanks | scripts/check-ipc-args.js:137-169 | Blanking an attribute blanks its comments and leaves its strings, escapes and brackets. |
| HandlerRoundTrip.EntriesBlank | scripts/check-ipc-args.js:141-169 | Blanking a printed list, with attributes of any kind, blanks its comments and nothing else. |
| HandlerRoundTrip.EntriesPass | scripts/check-ipc-args.js:207-227 | The bracket scan passes every entry with its whole attributes and stops at none of their brackets. |
| HandlerRoundTrip.EntriesStrip | scripts/check-ipc-args.js:174-192 | Stripping removes exactly the whole attributes of a printed list. |
| HandlerRoundTrip.EntriesSplit | scripts/check-ipc-args.js:216 | Splitting the stripped list at commas gives one part for each entry. |
| HandlerRoundTrip.LastOfPath | scripts/check-ipc-args.js:217 | The last `::` segment of a printed path, comments and spaces around every `::`, is the path's last name behind blanks. |
| HandlerList.ParseRegisteredCommands | scripts/check-ipc-args.js:203-228 | On every source: null without a complete list, else the command names in the first list of the blanked text. |
| HandlerList.ReadNames | scripts/check-ipc-args.js:207-227 | The loop's list ends at the first `]` without its own `[`; without one there are no names. |
| HandlerList.StripRustAttributes | scripts/check-ipc-args.js:174-192 | The loops remove each attribute up to its balancing bracket, or the rest when there is none. |
| HandlerList.BracketFollows | scripts/check-ipc-args.js:205-207 | The first `[` after the start of the match is the bracket the match ends with. |
| TopLevelSplit.SplitTopLevel | scripts/check-ipc-args.js:82-93 | The loop returns the cut of the text at every separator of depth zero, a blank last piece dropped. |
| TopLevelSplit.PiecesAreTheCut | scripts/check-ipc-args.js:82-93 | A list of pieces is that cut if and only if the pieces join to the text, no piece holds a top-level separator and all but the last are balanced: the cut exists and is unique. |
| TopLevelSplit.SplitThenJoin | scripts/check-ipc-args.js:82-93 | Joined again the parts give the text back, up to the dropped blank tail. |
| TopLevelSplit.JoinThenSplit | scripts/check-ipc-args.js:82-93 | Balanced parts without a top-level separator and with a last part that is not blank come back from their join. |
| SplitTrees.TreesAreSplit | scripts/check-ipc-args.js:82-93 | Texts printed from trees of `()`, `[]`, `{}` and `<>` and joined by a separator that stands in none of them outside brackets are split into the same texts; a separator inside brackets splits nothing. |
| Brackets.MatchingClose | scripts/check-ipc-args.js:465-474 | The loop finds the first closer of the bracket's kind that evens the count, or -1 when there is none. |
| Brackets.EnclosingOpen | scripts/check-ipc-args.js:451-462 | The backward loop finds the last opener that nothing after it closes, or -1 when there is none. |
| Brackets.PartnerExists | scripts/check-ipc-args.js:465-474 | On properly nested code every opener has a partner in a stack matcher. |
| Brackets.MatchingCloseIsPartner | scripts/check-ipc-args.js:464-474 | On properly nested code counting one kind of bracket finds an index if and only if it is the stack matcher's partner. |
| Brackets.EnclosingOpenIsInnermost | scripts/check-ipc-args.js:450-462 | Where the brackets before a position nest, counting all kinds backwards gives the top of the stack matcher, -1 when it is empty. |
| Brackets.MatchersInverse | scripts/check-ipc-args.js:451-474 | `enclosingOpen(code, matchingClose(code, o)) == o` on properly nested code. |
| Brackets.EnclosureCloses | scripts/check-ipc-args.js:451-474 | The bracket that holds a position closes at or after that position. |
| BracketTrees.MatchersFindPairs | scripts/check-ipc-args.js:450-474 | In code printed from a tree of `()`, `[]` and `{}` `matchingClose` finds the closing bracket of every pair and nothing else, and from there `enclosingOpen` finds the opening one. |
| Verdict.FindProblems | scripts/check-ipc-args.js:669-702 | The problems of all sites, in order, as the specification lists them. |
| Verdict.ArgumentProblems | scripts/check-ipc-args.js:683-699 | The unexpected keys in order, with the camelCase hint, then the missing required ones. |
| Verdict.SummaryLines | scripts/check-ipc-args.js:712-725 | The counts, and either every site that was not checked or the sentence that every name was. |
| Verdict.SiteVerdict | scripts/check-ipc-args.js:671-699 | A call is right (known, registered, readable, only expected keys, every required key) if and only if it has no problem and is not listed as not checked. |
| Verdict.VerdictSound | scripts/check-ipc-args.js:665-725 | No problem is found and every name is said to be checked if and only if every call site is right. |
| Verdict.WrongCallIsMentioned | scripts/check-ipc-args.js:704-725 | A site that is not right has a problem of its own or is listed as not checked. |
| VerdictProblems.ProblemsOfSite | scripts/check-ipc-args.js:671-699 | A site has a problem if and only if what that says of it is so: the unknown command, the unregistered definition, the unexpected key with its hint, the missing required key. |
| VerdictProblems.ProblemsTold | scripts/check-ipc-args.js:669-702 | Exactly what is so of some site is told, of all sites. |
| VerdictProblems.SiteBySite | scripts/check-ipc-args.js:669-725 | The problems, and the sites listed as not checked, come site by site, each as often as its site does. |
| VerdictProblems.UnexpectedFirst | scripts/check-ipc-args.js:683-699 | Of one site the unexpected keys come before the missing ones. |
| VerdictProblems.HintIsCamel | scripts/check-ipc-args.js:95 | The hint is the key in camel case: words joined by underscores become the words with all first letters but the first one's capital. |
| Categories.IsRooted | scripts/check-keys-ui.js:1454-1462 | The visited-set walk ends on every parent map (self-loops, dangling parents) and returns true if and only if the chain reaches a category without an existing parent. |
| Categories.ReparentedMoves | scripts/check-keys-ui.js:1446-1449 | A reparent changes the parent link of the moved category and no other. |
| Categories.MoveRoots | scripts/check-keys-ui.js:1421-1426 | Exactly what a move does: a category below the moved one is rooted afterwards if and only if the move lands (at the top, or under a rooted category not below it); any other is as before. |
| Categories.MoveKeepsRooted | scripts/check-keys-ui.js:1421-1426 | A move unroots nothing if and only if it lands or the moved category was not rooted itself. |
| Categories.MoveToTopRepairs | scripts/check-keys-ui.js:1430-1449 | Moving a category to the top makes rooted exactly what was rooted or hung below it. |
| Categories.LoopMembersHang | scripts/check-keys-ui.js:1428-1430 | All that reaches a loop hangs below each of its members. |
| CategoryLoops.LoopTopRepairs | scripts/check-keys-ui.js:1428-1430 | Whatever reaches a loop is unrooted, and moving any category of that loop to the top level roots it. |
| Categories.ApplyKeepsRooted | scripts/check-keys-ui.js:1443-1476 | One command, reorder or reparent, unroots nothing if and only if it is no move of an existing rooted category that fails to land; it neither adds nor removes a category. |
| Categories.RunKeepsRooted | scripts/check-keys-ui.js:1443-1476 | A run of reorders, of landing moves and of moves of what was not rooted, of any length, leaves nothing unrooted that was rooted. |
| CategoryLoops.MovedInLoop | scripts/check-keys-ui.js:1421-1426 | The moved category is in a loop afterwards if and only if its new parent exists and hangs below it. |
| CategoryLoops.MoveClosesLoop | scripts/check-keys-ui.js:1421-1426 | A move puts some category in a loop that was in none if and only if the new parent exists, hangs below the moved category and is in no loop itself. |
| CategoryLoops.ApplyClosesLoop | scripts/check-keys-ui.js:1443-1476 | A command closes a loop if and only if it is such a move of an existing category; a reorder never does. |
| CategoryLoops.RunClosesNoLoop | scripts/check-keys-ui.js:1443-1476 | A run, of any length, none of whose moves closes a loop puts nothing in a loop that was in none. |
| CategoryLoops.LandingRun | scripts/check-keys-ui.js:1421-1426 | No loop is ever created: a run of reorders and moves that all land creates none and leaves nothing unrooted that was rooted. |
| CategoryLoops.UnrootedMoveClosesLoop | scripts/check-keys-ui.js:1421-1426 | A concrete move of an unrooted category that uproots nothing and closes a loop: landing is what is needed. |
| CategoryLists.ReachesTopList | scripts/check-keys-ui.js:1437-1464 | No category is lost: by following parents each reaches one that has no existing parent or whose chain of parents runs into a loop. |
| CategoryLists.RootedIs | scripts/check-keys-ui.js:1454-1462 | A category is rooted if and only if its chain of parents runs into no category that is its own ancestor. |
| CategoryLists.ListIs | scripts/check-keys-ui.js:1463-1464 | A category is in the top-level list if and only if it has no parent, an empty or a missing one, or its chain of parents runs into a loop; in the list of another if and only if that is its parent. |
| CategoryLists.InOneList | scripts/check-keys-ui.js:1463-1464 | Every category is in one list of its own, and in a second one only when its chain runs into a loop: then in the top-level list and in its parent's. |
| CategoryLists.RepliesAre | scripts/check-keys-ui.js:1465-1472 | Each reply exactly when it is due: an unknown id, else an id named twice, else one outside the scope or the list, else one left out of a list with a scope, else done. |
| CategoryLists.AcceptedOrders | scripts/check-keys-ui.js:1465-1472 | An order, the empty one included, is accepted if and only if it names, once each, exactly the whole list of its parent and scope, as the parent links give it; where the scope is empty, some of it. |
| Categories.PartialOrderWithoutScope | scripts/check-keys-ui.js:1470-1472 | A concrete partial order without a scope that is accepted, against the rule stated at 1437-1442. |
| Categories.Numbered | scripts/check-keys-ui.js:1473 | Each named category gets its place in the order as index; every other field and every other record is unchanged. |
| Categories.OrderIdempotent | scripts/check-keys-ui.js:1451-1475 | An accepted order sent again is accepted and changes nothing. |
| Categories.DistinctCount | scripts/check-keys-ui.js:1467 | The count of distinct names equals the length if and only if nothing is named twice. |
| Categories.Store.CategoryReparent | scripts/check-keys-ui.js:1446-1450 | The stored list becomes the reparented one. |
| Categories.Store.CategorySetOrder | scripts/check-keys-ui.js:1451-1475 | The reply is the first rule the order breaks; the list is renumbered when it breaks none and untouched otherwise. |
| Categories.Store.Judge | scripts/check-keys-ui.js:1464-1472 | The checks, in their order, with their own loops: unknown id, a name twice, a mixed list, a partial list. |
| Categories.Store.InListOf | scripts/check-keys-ui.js:1463-1464 | Whether a category belongs to the list of a parent, loop members counted at the top. |
| Scrubber.Scrub | scripts/check-audit-safety.js:89-142 | The nested loops write what a one-character automaton writes, on every source. |
| ScrubRoundTrip.ScrubRoundTrip | scripts/check-audit-safety.js:77-142 | Print, then scrub: of every source printed from tokens, each regular expression standing at the start, behind one of the listed signs or behind one of the keywords and each division elsewhere, names, signs and spaces are left as printed and in order, a block comment's newlines, a string's or template's own newlines and two quotes, and a zero for each regular expression. |
| Scrubber.SkipString | scripts/check-audit-safety.js:107-117 | A string of any quote, with its escapes and its kept newlines, up to its end or the source's. |
| Scrubber.SkipRegex | scripts/check-audit-safety.js:118-133 | The text of a regular expression with its classes and escapes, cut off at the line when unclosed. |
| Scrubber.SkipBlock | scripts/check-audit-safety.js:101-106 | A block comment leaves its newlines and nothing else. |
| Scrubber.NewlinesConserved | scripts/check-audit-safety.js:89-142 | At every position, newlines read are newlines written plus the escaped ones dropped so far. |
| ScrubRoundTrip.KeptOnItsLine | scripts/check-audit-safety.js:89-142 | Every character of code - outside comments and literals, and no start of one - is written as it is, and on its source line if and only if no escaped newline was dropped before it. |
| Scrubber.ScrubKeepsLines | scripts/check-audit-safety.js:89-142 | Input and output have equally many lines if and only if no string, template or regular expression holds an escaped newline. |
| Scrubber.EscapedNewlineLosesLine | scripts/check-audit-safety.js:110 | A concrete source of two lines that comes out as one. |
| Scrubber.ScrubbedIsClean | scripts/check-audit-safety.js:89-142 | No output opens a comment, holds a single or back quote, or a double quote outside adjacent pairs. |
| ToolHistory.Complete | scripts/check-assistant-ui.js:148-159 | The loop with its pending set accepts exactly the histories. |
| ToolHistory.HistoryIsAccepted | scripts/check-assistant-ui.js:148-159 | Reading with pending calls accepts exactly the concatenations of call-free messages and groups: an assistant's message with one result for each distinct call id, in any order. |
| ToolHistory.CutHistory | scripts/check-assistant-ui.js:148-159 | Both parts of a cut are histories if and only if the whole is and the cut is not before a tool's result. |

## Left out

- JsSimulation.MaskIdempotent: one direction only; an escaped newline breaks idempotence in some sources and not in others (one lemma gives an instance of each), so that guard cannot be exact for it. The exact condition for keeping the literal spans is `JsSimulation.MaskKeepsLiterals`.
- JsRoundTrip.RoundTrip: divisions and regular expressions stand where the scanner takes them for what they are, as `JsRoundTrip.SlashTaken` says; elsewhere the text is another tree's.
- ScrubRoundTrip.ScrubRoundTrip: the same, by the scrubber's own rule; a template's text ends at its first unescaped backtick, and an unclosed literal is not printed.
- HandlerRoundTrip.HandlerListRoundTrip: attributes are whole as `HandlerAttributes.AttributeIsWhole` says; the text before the list holds no earlier match once its comments are blanked.
- ObjectKeysRoundTrip.ObjectKeysRoundTrip: divisions, regular expressions and templates are read as meant, as `ObjectTokens.DivisionTaken`, `ObjectTokens.RegexTaken` and `ObjectTokens.TemplateIsWhole` say exactly for each; a literal with one that is not can still come out right by chance. A name after a quoted or computed key is no JavaScript and is not printed.
- ObjectKeysRoundTrip.NothingDroppedQuietly: the same; when a slash or a template is misread, keys can be lost or made up without a misread entry.
- PayloadVerdict.SiteIsRight: the payload is an object literal; the other payloads of `parseCallSitesIn` are left out with it.
- Verdict.FindProblems: problems and summary lines are data, not message strings; an object's inherited names (`toString` as a command) are not modelled.
- ObjectKeys.ReadObjectKeys: a reason for an unreadable key is data; the key's text in it keeps its inner white space, which the message collapses.
- Categories.Store.CategorySetOrder: ids are assumed unique in the stored list; a category's remaining fields are one name.
- JsScanner.Scanner.Scan: the closures of `jsScan` and the branches of its loop are methods of a class whose fields are the captured variables; `readObjectKeys` likewise.
- Lines end in a newline character only, as the scanners have it; the other line terminators of JavaScript are characters like any other.
- The JavaScript `string` index: a character here is one position, also outside the basic plane.
- `jsMask` writes into a JavaScript array that grows by one when it is written past its end; the model reassigns a sequence.
- Rust nested block comments, character literals and raw strings: the blanker does not treat them, and the printed lists hold none.
- `enclosingOpen` and `matchingClose` on badly nested code: only the loop specifications hold there.
- `firstArgument`, `parseCallSitesIn`, `parseCommandsIn`, `rebinding`, `variablePayloadKeys`, `wrapperReferences`, `LABELS`, `CODE_RULES`: their content is in regular expressions, not in reasoning.
- `nativeConfirmSites`, `nativeConfirmLine` and `brackets` in the audit script: pattern matches and counts over the scrubbed text.
- `scrub` in scripts/check-renderer-globals.js: it drops newlines inside comments and strings, so the line property does not hold of it.
- `emulateCredentialQuestion`, the browser scenarios and the other stub servers: test scripts over a user interface.
- Reading files, hashing, console output and process exit.
