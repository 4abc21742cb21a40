# term.tree core in Dafny

This project models the core of the term.tree toolchain:

- the link-text tokenizer, which splits a `.link` source into lines and
  matches each line against a mode-dependent list of regular expressions;
- the lexical scope chain the builder keeps;
- the module-mesh resolver, which loads code cards, dispatches their
  top-level nests by nest type and keyword, buckets a mesh module's
  declarations, and follows its imports and exports;
- the builder's code-card pass and its dispatcher;
- the geometry of the builder's diagnostics: the cursor range of a term or
  text nest, and the numbered source excerpt with its underline;
- the error records the generators build;
- six leaf validators that accept one nest type per construct.

All of it is modelled as pure functions over immutable datatypes. The
registry (`base.cards`) is threaded through the mesh calls as a value.

Collaborators whose code is not part of this model are passed in as
parameters. These are:

- the file loader, as a finite table of loadable paths;
- `determineNestType`, the static-term resolvers, and the per-keyword handlers other than the mesh resolver's `note` handler, which is modelled;
- the child list of a nest (`assumeNest(input).nest`);
- `childrenAreMesh`;
- the deck-path pattern;
- the parser that builds a card's tree.

Each regular expression of the tokenizer is a hand-written matcher
(module `Patterns`). The tokenizer is stated for any matcher that never
matches more than the line, and instantiated with those matchers.

Files: `results.dfy` (Option, Result, Outcome), `strings.dfy` (character
classes, split and join, `padStart`, `String(n)`), `patterns.dfy`,
`tokenizer.dfy`, `tokenizer_cases.dfy`, `scope.dfy`, `trees.dfy`,
`excerpts.dfy`, `terms.dfy`, `diagnostics.dfy`, `mesh.dfy`, `code_card.dfy`,
`leaves.dfy`.

Where the code and its documentation disagree, the model follows the code:

- The line loop's counter `i` is never incremented. A break token therefore
  follows every line exactly when the text has more than two lines, and a
  final break token is always appended.
- When no pattern matches a line, the source loops forever instead of
  raising its syntax error. See Findings.
- An unterminated `<` or `{` is accepted: nothing checks the mode stack
  at the end.
- An empty mode stack reads as tree mode.
- The string-body pattern's second alternative is unanchored, so its match
  may start further right than the line's start.
- The public bucket of a declaration family keeps the last VISIBLE
  declaration of a name. A later hidden declaration replaces the entry only
  in the all-bucket.
- The builder's dispatcher ignores nest types other than interpolations and
  static terms. The mesh resolver raises 0004 for them.
- An unknown keyword raises 0003 in the builder and 0002 in the mesh
  resolver.
- The term range's end link is looked up in the last line at the index of
  the first line's last link.
- The excerpt's gutter width is the digit count of the window's 0-based end
  index, while the printed numbers are 1-based.

## Model

| member | source | states |
|---|---|---|
| Patterns.Run | make/parser/tokenizer/index.ts:206-270 | the run stays in the string, every character in it satisfies the class, and it is maximal (the next character fails the class or the string ends) |
| Patterns.Literal | make/parser/tokenizer/index.ts:213-218 | a one-character pattern matches exactly when the line starts with that character |
| Patterns.CommaMatches | make/parser/tokenizer/index.ts:219-221 | `, +` matches iff the line starts with a comma and a space; the match is the comma plus the maximal run of spaces after it |
| Patterns.CommentMatches | make/parser/tokenizer/index.ts:222-224 | `# [^\n]+` matches iff the line starts with hash, space and one more non-break character; the match runs to the first line break |
| Patterns.DecimalMatches | make/parser/tokenizer/index.ts:225-227 | a decimal match is an optional minus, then digits around exactly one dot with at least one digit on each side, ending at a non-digit or the end of the line; conversely a line that starts with an optional minus, digits, a dot and a digit matches up to the end of the digit run after that dot |
| Patterns.HashtagMatches | make/parser/tokenizer/index.ts:228-230 | `#\w+` matches iff a hash is followed by a word character; the match is the hash plus the maximal run of word characters |
| Patterns.BracketedMatches | make/parser/tokenizer/index.ts:207-209 | a line matches exactly when the bracket follows its leading spaces; a match is spaces around exactly one bracket and ends where the spaces after it end |
| Patterns.SignedIntegerMatches | make/parser/tokenizer/index.ts:256-258 | a match is a minus and digits followed by a non-word character or the end, and any such prefix is the match |
| Patterns.UnsignedIntegerMatches | make/parser/tokenizer/index.ts:263-265 | a match is digits followed by a non-word character or the end, and any such prefix is the match |
| Patterns.EmptyLineMatchesNothing | make/parser/tokenizer/index.ts:206-270 | no pattern matches an empty line |
| Patterns.StringMatchIsUnanchored | make/parser/tokenizer/index.ts:267-269 | on `{ab` the string-body pattern reports a match of length two, found after the brace |
| Patterns.MatchLength | make/parser/tokenizer/index.ts:206-270 | the pattern table: every kind's match length is at most the line's length |
| Tokenizer.PatternsInMode | make/parser/tokenizer/index.ts:51-77 | every kind in the tree list is neither a string body nor a break, and the text list holds only close-interpolation, close-text and the string body |
| Tokenizer.FirstMatchFrom | make/parser/tokenizer/index.ts:326-329 | the pattern loop finds the first pattern with a non-empty match: it matches, and every earlier pattern does not |
| Tokenizer.FirstMatchIsFound | make/parser/tokenizer/index.ts:326-329 | whenever some pattern matches after a stretch of non-matching patterns, the loop finds it |
| Tokenizer.StepLine | make/parser/tokenizer/index.ts:317-372 | one step emits a token that is a non-empty prefix of the line, with the rest of the line left over |
| Tokenizer.StepLineFirstMatch | make/parser/tokenizer/index.ts:317-372 | a step fails exactly when no pattern of the current mode matches; otherwise the token's kind is the first pattern of the mode that matches, and the token is as long as that match |
| Tokenizer.StepLinePlaces | make/parser/tokenizer/index.ts:332-370 | the token's kind belongs to the mode, its offsets and positions start at the cursor and are as long as its text, and the cursor advances the offset only and applies the kind's push or pop |
| Tokenizer.ModeRestrictsKinds | make/parser/tokenizer/index.ts:318-324 | tree mode never produces a string body or a break; text mode produces only the two closers and the string body |
| Tokenizer.StepKeepsTreeBelowTop | make/parser/tokenizer/index.ts:355-370 | a step keeps every stack entry below the top a tree entry |
| Tokenizer.TokenizeLine | make/parser/tokenizer/index.ts:317-385 | a line's failure carries a last token whenever tokens were produced before it, and success never drops tokens |
| Tokenizer.TokenizeLineSpellsLine | make/parser/tokenizer/index.ts:317-372 | the tokens of one line concatenate to the line |
| Tokenizer.TokenizeLineAddsNoBreak | make/parser/tokenizer/index.ts:317-372 | one line adds no break token and leaves the line and column unchanged |
| Tokenizer.TokenizeLineExtends | make/parser/tokenizer/index.ts:317-372 | a line's tokens are appended after the tokens before them, which stay unchanged |
| Tokenizer.TokenizeLinePlaces | make/parser/tokenizer/index.ts:332-353 | tokens of a line are placed contiguously after the tokens before them |
| Tokenizer.TokenizeLineKeepsStack | make/parser/tokenizer/index.ts:355-370 | a line keeps the stack's lower entries tree entries |
| Tokenizer.TokenizeLineStartsBelow | make/parser/tokenizer/index.ts:317-385 | a line's tokens start on the cursor's line and the cursor stays on it, so a line that fails leaves a last token no later than the cursor's line or the tokens before it |
| Tokenizer.TokenizeLines | make/parser/tokenizer/index.ts:315-410 | the line loop's failure carries a last token whenever tokens were produced before it |
| Tokenizer.TokenizeLinesSpellsLines | make/parser/tokenizer/index.ts:315-410 | the remaining lines are spelled in order, each followed by a break exactly when there are more than two lines |
| Tokenizer.TokenizeLinesCountsBreaks | make/parser/tokenizer/index.ts:388-408 | the line loop adds one break per line when there are more than two lines and none otherwise |
| Tokenizer.TokenizeLinesPlaces | make/parser/tokenizer/index.ts:315-410 | every token of the line loop, breaks included, is placed after the tokens before it |
| Tokenizer.TokenizeLinesKeepsStack | make/parser/tokenizer/index.ts:315-410 | over all lines the stack keeps only tree entries below its top |
| Tokenizer.TokenizeLinesFailsOnALine | make/parser/tokenizer/index.ts:315-410 | when the line loop fails, the last token produced starts on one of the text's lines: the cursor never passes the line being read, and each break sits on the line it ends |
| Tokenizer.TokenizeWith | make/parser/tokenizer/index.ts:298-307 | both the result and the failure carry the path, the text and the text split on line breaks |
| Tokenizer.TokenizePlaces | make/parser/tokenizer/index.ts:298-435 | every token of a successful run is placed (contiguous offsets, line numbers counting the breaks before it, columns as wide as its text), and the run ends with a break token |
| Tokenizer.TokenizeCountsBreaks | make/parser/tokenizer/index.ts:388-429 | a successful run holds one break per line plus the final one when the text has more than two lines, and only the final one otherwise |
| Tokenizer.TokenizeSpellsText | make/parser/tokenizer/index.ts:298-435 | with more than two lines the token texts spell the text, a break and the final break; otherwise they spell the lines with no separator, then the final break |
| Tokenizer.TokenizeFailsOnALine | make/parser/tokenizer/index.ts:298-385 | a failed run's last token, when there is one, starts on a line of the text split on line breaks |
| TokenizerCases.ProcessLoopPass | make/parser/tokenizer/index.ts:317-372 | a pass of the loop as written leaves the line and the cursor unchanged when no pattern matches, and shortens the line otherwise |
| TokenizerCases.UnmatchedLineStalls | make/parser/tokenizer/index.ts:316-385 | in tree mode a lone `?` matches no pattern, so the loop's pass returns its own input and the loop never ends |
| TokenizerCases.UnmatchedLineFails | make/parser/tokenizer/index.ts:378-385 | the corrected tokenizer fails on `?` with the syntax token error and no last token |
| Scopes.FirstOwner | make/server/builder/scope.ts:31-37 | the reference lookup: the first scope on the chain that owns the key, with no earlier owner |
| Scopes.GetExtended | make/server/builder/scope.ts:24-44 | lookup checks the scope itself first, then its parent's chain |
| Scopes.GetIsNearest | make/server/builder/scope.ts:24-44 | lookup returns the binding in the nearest owner on the chain, and nothing when no scope owns the key |
| Scopes.SetOkIffOwned | make/server/builder/scope.ts:46-58 | assignment succeeds exactly when some scope on the chain owns the key, and otherwise throws |
| Scopes.SetFrame | make/server/builder/scope.ts:46-58 | assignment keeps the chain's length and kinds and changes only the nearest owner's binding of the key |
| Scopes.SetThenGet | make/server/builder/scope.ts:46-58 | after an assignment the key reads back as the new value |
| Scopes.SetKeepsOtherKeys | make/server/builder/scope.ts:46-58 | an assignment leaves the lookup of every other key unchanged |
| Trees.TermRangeZero | make/builder/error.ts:355-378 | a nest with no first term line, or a first term line without links, gets the zero range |
| Trees.TermRangeStart | make/builder/error.ts:375-424 | with a first term line, the range fails iff the last line is not a term, and starts where the first cord starts |
| Trees.TermRangeOfCords | make/builder/error.ts:350-427 | a single term line of cords spans from its first cord's start to its last cord's end |
| Trees.TermRangeKeepsStart | make/builder/error.ts:387-424 | for any nest with a first term line with links and a last term line: when the last line has no link at the first line's last index, or the nest is one line of one link, or that link is of another kind, the range is the first link's range |
| Trees.TermRangeThroughCord | make/builder/error.ts:387-395 | for any such nest, a cord in the last line at the first line's last index gives the range its end |
| Trees.TermRangeThroughSlot | make/builder/error.ts:396-410 | for any such nest, a slot at that position gives its child's end moved right by the slot's size; a child whose last line is not a term is unhandled, and a failure inside the child is the parent's failure |
| Trees.TermRangeThroughTerm | make/builder/error.ts:411-419 | for any such nest, a nested term at that position gives its child's end, and its failure |
| Trees.TermRangeEndUsesFirstLineWidth | make/builder/error.ts:387-395 | an example of the index rule: a first line of one cord and a last line of two cords end at the last line's FIRST cord |
| Trees.TextRangeZero | make/builder/error.ts:429-478 | the text range is zero unless the nest is one text line with links, and then starts at its first cord |
| Trees.TextRangeAgreesWithTermRange | make/builder/error.ts:429-478 | on a line of cords the text range and the term range agree |
| Trees.TextRangeIgnoresNonCordEnd | make/builder/error.ts:470-475 | the text range never takes its end from a link that is not a cord |
| Excerpts.WindowFor | make/builder/error.ts:67-96 | the window fails exactly on an empty file; otherwise it ends inside the file |
| Excerpts.WindowAroundHighlight | make/builder/error.ts:67-96 | the window holds at most five lines, at most two either side of the highlight, and contains the highlighted line whenever it exists |
| Excerpts.GutterNumbersFromOne | make/builder/error.ts:493-497 | a gutter is spaces then the line's 1-based number, read back as that number, at least the pad wide; the file's last line gets a blank gutter |
| Excerpts.GutterCanOutgrowPad | make/builder/error.ts:486-497 | the pad comes from the 0-based end index, so line index 9 of an eleven-line file prints `10` in a gutter sized for one digit |
| Excerpts.Tildes | make/builder/error.ts:504-506 | the underline holds one tilde per column from start to end character, none when the end is left of the start |
| Excerpts.SquiggleIsTildes | make/builder/error.ts:504-506 | building the tildes fails exactly when the array length would be negative, and otherwise gives the tildes |
| Excerpts.Rows | make/builder/error.ts:491-515 | every line row of the layout of lines `i..n` names a line in `i..n` |
| Excerpts.RowsOkIff | make/builder/error.ts:491-515 | the layout fails exactly when the highlighted line is shown and the end is more than one column left of the start |
| Excerpts.RowsCount | make/builder/error.ts:491-515 | one row per window line, plus one when the highlighted line is shown |
| Excerpts.RowsShowLine | make/builder/error.ts:491-515 | every window line has its row, at its index after the earlier lines and the underline |
| Excerpts.RowsUnderline | make/builder/error.ts:498-510 | the row right after the highlighted line is its underline |
| Excerpts.RenderRows | make/builder/error.ts:491-515 | printing keeps the number of rows and prints each row in place |
| Excerpts.ExcerptLines | make/builder/error.ts:71-77 | an empty file makes the excerpt fail on the missing line |
| Excerpts.ExcerptLayout | make/builder/error.ts:480-520 | the excerpt renders iff the shown highlight's end is not more than one column left of its start; it opens and closes with the blank gutter and holds one line per window line plus the underline |
| Excerpts.ExcerptShowsLine | make/builder/error.ts:491-515 | every window line is printed as its gutter, a bar and its text, at its index |
| Excerpts.ExcerptShowsUnderline | make/builder/error.ts:498-510 | the highlighted line is followed by the blank gutter, `start.character` spaces and the tildes |
| Excerpts.Excerpt | make/builder/error.ts:67-96 | the joined excerpt exists exactly when its lines do |
| Excerpts.ExcerptPrintsHighlight | make/builder/error.ts:67-96 | an excerpt fails with a missing line exactly on a file of no lines, and with the array-length error exactly when the shown highlight ends more than one column left of its start; otherwise its text is the lines joined by line breaks and prints the highlighted line, numbered, with its underline on the next line |
| Terms.LookupKeyword | make/mesh/code/index.ts:106-155 | a term found in the keyword switch is that keyword's spelling |
| Terms.LookupSpelling | make/builder/card/code/index.ts:117-166 | every keyword is found under its own spelling |
| Terms.LookupIffSpelled | make/mesh/code/index.ts:110-153 | a term is a keyword exactly when it is some keyword's spelling |
| Terms.CodesDistinct | make/builder/error.ts:58-348 | every code is four characters and no two generators share one |
| Terms.KindOfCode | make/builder/error.ts:58-348 | a code read back names a generator that writes exactly that code |
| Terms.CodeRoundTrip | make/builder/error.ts:58-348 | every generator's code reads back as that generator, and a code reads back as nothing exactly when no generator writes it |
| Diagnostics.TermExcerptPrints | make/builder/error.ts:98-106 | the term excerpt fails with the term range's fault, with a missing line on an empty file, and with the array-length error exactly when the shown highlight is inverted by more than a column; otherwise it prints the nest's highlighted line, numbered and underlined |
| Diagnostics.SyntaxTokenDiagnosticRenders | make/builder/error.ts:209-240 | for every text that fails to tokenize, the syntax error renders, its code reads back as 0021, the highlighted line (the last token's, or the first when no token was produced) is a line of the text, and the record's text prints it, numbered and underlined |
| Diagnostics.NestCaseNote | make/builder/error.ts:283-285 | the note names the nest type, with the scope's name appended only when it is present |
| Diagnostics.UnknownTermNote | make/builder/error.ts:331-333 | the note names the term, adding its enclosing term only when that is present |
| Diagnostics.ToJs | make/builder/error.ts:42-48 | the returned object always has its `code` property |
| Diagnostics.IsErrorIffCode | make/builder/error.ts:522-529 | a record passes `isError` exactly when its code is non-empty, so every generated record passes |
| Diagnostics.RecordsNameTheirKind | make/builder/error.ts:58-348 | the record of each generator without an excerpt (0001, 0008, 0009, 0010, 0013, 0018, 0019, 0020) carries a code that reads back as that generator |
| Diagnostics.ExcerptRecordsNameTheirKind | make/builder/error.ts:138-336 | the record of each excerpt generator (0002, 0003, 0004, 0005, 0011, 0012), when it is built, carries a code that reads back as that generator |
| Diagnostics.GeneratedRecord | make/builder/error.ts:271-336 | of the generators the dispatchers call: 0001 always builds its record; 0002 throws the name assertion for a nest with no name; otherwise a generator throws exactly what the term excerpt throws. A built record names its generator, passes `isError`, blames the card, and (0001 aside) prints the nest's highlighted line, numbered and underlined |
| Mesh.Dispatch | make/mesh/code/index.ts:86-155 | a raised diagnostic is attributed to the nest's index |
| Mesh.DispatchRoutes | make/mesh/code/index.ts:86-155 | interpolations raise 0001, each of the nine other keywords reaches its own handler, `note` reaches the note handler, an unknown term raises 0002, any other nest type raises 0004 |
| Mesh.DispatchNote | make/mesh/code/note/index.ts:4-29 | a `note` term adds no mesh node and passes exactly when every child is static text; otherwise it fails with 0002 at its first child of another type, attributed to the note's index |
| Mesh.ProcessChildrenFirstFailure | make/mesh/code/index.ts:78-82 | processing succeeds iff every nest dispatches; a failure is the first failing nest's, with every earlier nest succeeding |
| Mesh.LastDecl | make/mesh/code/index.ts:194-235 | the reference for a bucket entry: the last child declaring the name in the family, with no later one |
| Mesh.OfKind | make/mesh/code/index.ts:236-245 | the children of one kind keep only children of that kind, and every child of that kind is kept |
| Mesh.BucketOkIff | make/mesh/code/index.ts:194-251 | bucketing succeeds iff every child is a declaration, import or export; otherwise it fails with not-implemented for the first offender |
| Mesh.BucketAll | make/mesh/code/index.ts:194-235 | the all-bucket holds a name iff some child declares it, bound to the last such child |
| Mesh.BucketPublic | make/mesh/code/index.ts:194-235 | the public bucket holds a name iff some visible child declares it, bound to the last visible one |
| Mesh.BucketLists | make/mesh/code/index.ts:236-245 | imports and exports are collected in source order |
| Mesh.PublicWithinAll | make/mesh/code/index.ts:194-235 | a public entry is also in the all-bucket; a name whose declarations are all hidden is not public; when the all-bucket's entry is visible, the public bucket holds the same entry |
| Mesh.Process | make/mesh/code/index.ts:54-84 | an unloadable path fails; success registers the path, appends it to the processed log, keeps every other seed, adds no request, binds its code module with its processed children when the text has content and with none otherwise, and passes a dispatch failure on |
| Mesh.Handle | make/mesh/code/index.ts:46-52 | a registered path is left alone; a new one is loadable and processed first, the registry only grows, every earlier seed is kept, and only requests made under it are added |
| Mesh.Resolve | make/mesh/code/index.ts:157-336 | resolution only grows the registry, keeps every other seed, and makes requests only from this card or newly handled ones |
| Mesh.HandleList | make/mesh/code/index.ts:263-333 | a walk of targets grows the registry, keeps every registered seed, and adds only requests from it or from newly handled cards |
| Mesh.HandleKeepsConsistent | make/mesh/code/index.ts:46-52 | however imports cycle, handling keeps every registered path processed exactly once |
| Mesh.HandleFromEmpty | make/mesh/code/index.ts:46-52 | from the empty registry the handled path is processed first, the registry is consistent, and handling it again changes nothing |
| Mesh.HandleListRequests | make/mesh/code/index.ts:263-333 | a successful walk rejected no node, and the requests it attributes to the card are exactly the reference targets in order |
| Mesh.ResolveRequests | make/mesh/code/index.ts:157-336 | a mesh module's seed is replaced by its buckets and it requests its imports then its exports; otherwise the seed stays and it requests its followed children |
| CodeCards.FreshSeed | make/builder/card/code/index.ts:49-76 | the seed starts with seventeen empty meshes and empty lists, and its lines join back to the text |
| CodeCards.StepRoutes | make/builder/card/code/index.ts:100-166 | interpolations raise 0001, a keyword reaches its own handler, an unknown term raises 0003, other nest types pass with the seed unchanged |
| CodeCards.DispatchersDiffer | make/builder/card/code/index.ts:100-166 | the two dispatchers agree on interpolations, disagree on unknown terms (0003 against 0002), and only the mesh resolver rejects other nest types |
| CodeCards.Walk | make/builder/card/code/index.ts:89-95 | a walk records at most one visit per nest |
| CodeCards.WalkVisits | make/builder/card/code/index.ts:89-95 | a completed walk refused no nest, and its visits are exactly the keyword nests, in order, each with its index and keyword; a failed walk accepted every nest before the fault's index, and fails there either at a refused nest (0003 exactly when it is a static term, else 0001) or at a keyword nest whose handler failed, naming that keyword |
| CodeCards.ProcessCodeCard | make/builder/card/code/index.ts:41-98 | an unparsable text fails the nest assertion; a card with no nests keeps the fresh seed; a completed card refused no nest and visited exactly its keyword nests in order; a card that parsed but failed accepted every nest before the fault's index, and failed there at a refused nest (0003 exactly when it is a static term, else 0001) or at a keyword nest whose handler failed, naming that keyword |
| CodeCards.PassedOverNestsLeaveSeed | make/builder/card/code/index.ts:100-116 | a card whose nests are all passed over keeps its seed and visits nothing |
| Leaves.FirstOffender | make/mesh/code/risk/index.ts:7-27 | the first child of another type, if any: none exactly when every child has the accepted type, and every child before it has that type |
| Leaves.OffenderIsFirst | make/mesh/code/risk/index.ts:7-27 | a child of another type with only accepted children before it is the first offender |
| Leaves.Validate | make/mesh/code/risk/index.ts:17-27 | a validator passes iff every child has the accepted type, and otherwise fails with 0002 at the first child that does not, which is the first offender |
| Leaves.RiskChildren | make/mesh/code/risk/index.ts:7-27 | passes iff every child is static text; otherwise 0002 at an offending child |
| Leaves.NoteChildren | make/mesh/code/note/index.ts:7-28 | passes iff every child is static text; otherwise 0002 at the first child that is not, the same child at which the mesh dispatcher's `note` case fails |
| Leaves.WalkChildren | make/builder/card/code/walk/index.ts:6-25 | passes iff every child is a static term; otherwise 0002 at an offending child |
| Leaves.LoadBearChildren | make/builder/card/code/load/bear/index.ts:6-24 | passes iff every child is static text; otherwise 0002 at an offending child |
| Leaves.SaveChildren | make/builder/card/code/save/index.ts:6-25 | passes iff every child is static text; otherwise 0002 at an offending child |
| Leaves.LoadFindSaveChildren | make/builder/card/code/load/find/save/index.ts:6-22 | passes iff every child is a static term; otherwise 0002 at an offending child |
| Strings.JoinSplit | make/parser/tokenizer/index.ts:305-307 | joining the split of a text on line breaks gives the text back |
| Strings.DecimalRoundTrip | make/builder/error.ts:493-497 | the decimal string of a number reads back as that number |

## Left out

- `throwError`, stack traces, source maps and terminal colouring. Colouring is taken as the identity, and raising is a `Result` error.
- `generateObjectNotTypeError` (0007) and `prettifyJSON`: they print arbitrary JavaScript values.
- Scopes are shared by reference in the source. `Set` returns the rebuilt chain instead, so aliasing between callers is not modelled.
- JavaScript's `in` also finds inherited prototype keys. Scope data are plain maps here.
- The file loader, `readTextFile`, the tree parser, `determineNestType`, the static-term resolvers, `childrenAreMesh`, the nests' child lists and the per-keyword handlers are parameters, because their code is not part of this model. The exception is the mesh resolver's `note` handler (make/mesh/code/note/index.ts), which is `Mesh.ProcessNote`. The builder's `note` handler lives in make/builder/card/code/note, which is not part of this model, so it stays a parameter.
- The deck-path regular expression is a parameter predicate.
- `handle_deckCard` is recorded in the request log and otherwise has no effect, because its code is not part of this model.
- The diagnostics of the handlers that are parameters are not modelled. Such a failure is one opaque error. A failing mesh `note` handler instead raises 0002 with the offending child's index.
- `console.log` calls and the commented-out mesh minting are not modelled.
- `resolveStaticTerm` in the walk validator is not modelled: its result is unused.
- `assumeLink` and `assumeNest` failures in the validators are not modelled. The validators take the child list directly.
- `base.card(link)` creates an unbound card for an unknown path. Resolving an unregistered path is modelled as doing nothing.
- The card being bound before its children are processed cannot be observed in this model, because nothing reads the card during processing.
- Patterns.MatchPath: only bounded by the line's length. The path alternatives are written out in its body, but no lemma characterises them.
- Patterns.MatchTermFragment: only bounded by the line's length. The term-fragment grammar is written out in its body, but no lemma characterises it.
- Patterns.MatchString: only bounded by the line's length, apart from the unanchored case shown by `StringMatchIsUnanchored`.
- Patterns.Bracketed: its own contract only bounds the match; `BracketedMatches` states what it matches.
- Mesh.Resolve: it does not state that an unregistered path stays unregistered after `base.card()`, since unbound cards are not modelled.
- 32-bit and floating-point limits of JavaScript numbers are not modelled: positions, offsets and counts are unbounded naturals.
- Tokenizer.StepLine: lengths count Unicode scalar values, while JavaScript's `length` and `slice` count UTF-16 code units, so a character outside the Basic Multilingual Plane is one column here and two in the source.
- Tokenizer.StepLinePlaces: its offsets and columns count Unicode scalar values, not UTF-16 code units.
- Tokenizer.TokenizeLinePlaces: its offsets and columns count Unicode scalar values, not UTF-16 code units.
- Tokenizer.TokenizeLinesPlaces: its offsets and columns count Unicode scalar values, not UTF-16 code units.
- Tokenizer.TokenizePlaces: its offsets and columns count Unicode scalar values, not UTF-16 code units.
- Excerpts.ExcerptPrintsHighlight: the underline's columns count Unicode scalar values, not UTF-16 code units, so it can sit further left than the source's under a line with characters outside the Basic Multilingual Plane.
- Mesh.Dispatch: a raised fault names the generator called (its kind) and the nest's index, not the record it builds. What that generator builds or throws first is `Diagnostics.Generated` for the nest's site, stated by `Diagnostics.GeneratedRecord`; it is not carried in the fault, because the card's lines and the term resolver are not threaded through the dispatch.
- Mesh.DispatchRoutes: "raises 0002" and "raises 0004" mean the generator is called; the generator's own throws (the name assertion, the term range, the excerpt) are stated by `Diagnostics.GeneratedRecord`, not here.
- Mesh.DispatchNote: the 0002 raised inside a note names the note's index and the offending child's index, not the record. What `generateUnhandledTermCaseError` builds or throws first for that child is stated by `Diagnostics.GeneratedRecord`.
- CodeCards.Step: a raised fault names the generator called and the nest's index; what `generateUnknownTermError` throws first is stated by `Diagnostics.GeneratedRecord`, not carried in the fault.
- CodeCards.StepRoutes: "raises 0003" means `generateUnknownTermError` is called; its own throws are stated by `Diagnostics.GeneratedRecord`, not here.
- Leaves.Validate: a failure names the first offending child and the 0002 generator; whether `generateUnhandledTermCaseError` throws first for that child is stated by `Diagnostics.GeneratedRecord`, not carried in the fault. The same holds for the six validators built on it.
- Diagnostics.GeneratedRecord: the static-term resolver's own throws are not modelled, because the resolver is not part of this model. Three of its calls sit outside any `try`: the name lookup of `generateUnhandledTermCaseError` (make/builder/error.ts:297, 0002), and the name and enclosing-term lookups of `generateUnknownTermError` (make/builder/error.ts:325 and 327, 0003). The model reads a lookup that yields nothing as returning nothing: a missing 0002 name fails the name assertion (`MissingName`), and a missing 0003 name prints as `undefined`, with the enclosing clause left out. A throw at any of those three lines, which would end the generator before it returns its record, is not stated.
- Mesh.ProcessChildren: `processNestedChildren` is not part of this model, and two things about it are assumed. First, it walks the nests of `parse.link` in order, passing each with its index, and collects the handlers' children in that order. Second, a handler neither reads nor changes the registry. The source passes handlers an `input` that carries `base` (make/mesh/code/index.ts:67-73), so a handler that registered or bound cards itself would break this.
- Mesh.Handle: its clause that only requests made under the handled card are added depends on the second assumption above, that handlers leave the registry alone. So do `Mesh.HandleKeepsConsistent` and `Mesh.HandleListRequests`.

## Findings

| source | as written | input that shows it | evidently intended | confidence | as-written member | corrected member |
|---|---|---|---|---|---|---|
| make/parser/tokenizer/index.ts:316-385 | when no pattern of the current mode matches the rest of a line, `processLoop` runs again on the unchanged line, so the syntax error after the loop is never reached | the text `?` in tree mode matches no pattern | stop and raise `generateSyntaxTokenError` with the last token produced | not executed | TokenizerCases.UnmatchedLineStalls | TokenizerCases.UnmatchedLineFails |
