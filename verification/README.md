# Rialto OCDM: models and proofs

Rialto OCDM is a C++ library that puts the OpenCDM interface on top of Rialto, together with the tree's own C++ linter. This project models the two parts of it where the logic is hard.

**The text engine of the linter** (`scripts/cpplint/cpplint.py`). Two bracket matchers, one forward and one backward, keep `<` and `>` on the same stack as the real brackets and guess which of them are operators; a third, simple matcher cuts out the text inside a pair. Raw strings, block comments and string contents are removed from the lines, and a stack of blocks is kept with checkpoints at `#if`, `#else` and `#endif`.

**The session lifecycle of the library** (`library/source`). A reference-counted registry holds the sessions, each session may hold a handle that registers it with a message dispatcher, the dispatcher broadcasts to whoever is registered, and a backend follows the application state. API threads, dispatcher threads and the control thread interleave.

## How the models are built

Where the source changes things step by step, the model does too. The scanners are methods with index loops and a mutable stack, block comments are removed in place from an array of lines, and the block stack, its checkpoints, the registry, the sessions, the dispatcher and the backend are classes. Each method is tied by its contract to a function of its inputs or of the old state, and the theorems are about those functions. What the functions are compared with is defined independently of them: a grammar of balanced words, a reading of the lines that are inside a comment, a grouping of consecutive arguments, the last message delivered in a history of steps.

| file | what it holds |
|---|---|
| Brackets | the grammar of balanced words over `()[]{}`, and two plain scanners that find partners |
| ExpressionMatcher, BracketMatching, AngleMatching, BackwardAngles, TextInside | the three matchers, and what they compute over any number of lines |
| AngleWeights | which `<` and `>` count, from the characters alone, and what the two matchers find in those terms |
| AngleRoundTrip | when the two angle-aware matchers undo each other on argument lists |
| RawStrings, MultiLineComments, CollapseStrings, ConstructorArgs | the text rewriters |
| RawLiterals, CollapseLaws | what becomes of a literal, a character, a number, an escape, told from the parts of the text |
| CollapseTwice, IncludeLines | when a second collapse changes nothing |
| Nesting, NestingState | the block stack as values and as mutable objects |
| LinePatterns, TemplateLookahead, LineReading | from the text of the lines to what they do to the stack |
| PatternLaws, ClassHeads | what the readers of a line find, told from the parts of the line |
| BlockWalk, BlockLaws, BlockFields | the nesting read character by character, what heads, braces and semicolons leave behind, and the other parts of a block |
| NestingErasure, ErasureExample, ClassEndExample | when erasing preprocessor branches preserves the stack, and files on which it does not |
| CdmBackend | the application state and the media keys |
| SessionModel, SessionLibrary | one session as a value; sessions, dispatcher, registry and construction as objects |
| SessionRefinement | the calls on the objects take the steps of the state machine |
| SessionRuns, SessionTheorems, SessionConstruction, SessionErasure, SessionMessages | all interleavings as a state machine, and what holds over every one of its runs |
| Characters, FlatText, Wrappers | character classes, lines laid end to end, `Option` |

In the state machine a step is one section under a mutex, or what a call does between two such sections. `initialize` is two steps (the backend call, then the registration), `closeSession` three (the backend call, the handle, the data), `getChallengeData` two, and the last `remove` of a session two: first the members declared behind the handle are destroyed, the challenge and the key statuses among them, then the handle is released. The registry's mutex is held throughout, the dispatcher's is not. Calls on one session follow one another, and its last remove comes when none is running; broadcasts, other removes, gets and calls on other sessions may come anywhere in between. What the media keys answer, and what the factory gives, is arbitrary.

A line of a file is read from its text: directives, namespace and class heads, access specifiers, assembly heads and braces are found by readers that stand for the linter's patterns. Two things about a class head depend on the lines behind it: the verdict of `InTemplateArgumentList`, a scan that uses the forward matcher, and the line on which the class seems to end.

## Where the code does not keep a law

For each of these the exact condition is proved, over all inputs.

- Erasing the `#else` branches of a file can change the stack, since a class head may look ahead into a branch that is erased: for the verdict on it, and for the line on which the class seems to end. On all kept lines the stacks agree if and only if, on every class head found outside parentheses, the scan gives the same verdict in both texts, and the same end where the class is taken (`ErasurePreservesIff`). They do so whatever the erased branches hold if and only if the verdict is decided, and the end found, before the first of them (`HeadIsSafeIff`, `EndIsSafeIff`), so a file all of whose heads are decided in time is safe (`ErasureIsSafe`). `class Foo`, `#if A`, `#else`, `[[x]]`, `#endif`, `{` is a file where a class turns into a plain block (`ErasureChangesTheStack`, `ExampleMisleads`), and `class Foo {`, `#if A`, `#else`, `}`, `#endif` one where its end moves (`ErasureMovesTheEnd`, `ExampleMisplaces`).
- A broadcast can reach a session under destruction, whose data is gone, if and only if the session is still registered at its last remove (`DestructionIsMetIff`); the rollback of a construction whose close fails is such a case (`FailedCloseIsMet`).
- A closed session stays silent for ever if and only if it had been initialized. `createKeySession` may write the session id and still fail; then `closeSession` succeeds on a session that is not initialized, and a later `initialize` registers it again (`ClosedIsSilentIff`, `UninitializedCloseReopens`, `UninitializedCloseIsPossible`).
- With a factory that may fail, `initialize` at startup is noticed at the end if and only if it moved the state from UNKNOWN and no later notification took effect (`InitializeIsNoticedIff`).
- The rollback of a failed construction removes the session if and only if no `get` handed it out in the meantime (`RollbackLeavesNothing`).
- The regrouping loop reads past the end of the argument list if and only if some group that it starts stays open to the end; `x=a<b` is such a list (`RunsOffIff`, `ComparisonRunsOff`).
- Forward and backward matching undo each other for `( [ {`. On argument lists they take some angles differently, and a scan may skip the angle it starts from and take up its list at another one on the line, or nowhere. Where one of them has matched, the other leads back if and only if it takes up a list, the text between is balanced, the angle at the far end is counted, and what the two readings differ by outside brackets makes up for what is pending there and never outweighs what is pending in between (`AnglesUndoIff`, `AnglesUndoBackIff`, for any two angles). With plain angles they always do (`PlainAnglesUndo`). `a<b >= c` and `a<=b>` are lines on which they do not, as one of them takes up no list (`AnglesDoNotUndoEachOther`, `NorDoTheyBackward`).
- A scan started on a `<` that is not pushed, such as the second half of `<<`, passes over it: the match is that of the first opener or pushed `<` behind it on the line, if no closer and no semicolon comes before, and there is none otherwise (`UnpushedLessPassesOver`). So it may report the end of a later bracket (`UnpushedLessEnds`, `UnpushedLessMatchesABracket`).
- A second collapse of a line changes nothing if and only if the line is an include line, or has the head of one once its escapes are dropped and keeps a closing character behind it, or no `\x` outside quotes is followed by nothing but escape sequences and then by a hexadecimal digit (`CollapseTwiceIff`, `EscapesCanReappear`).

## Model

| member | source | states |
|---|---|---|
| Brackets.ForwardFindsPartner | scripts/cpplint/cpplint.py:5300-5327 | a plain stack scan to the right finds an end if and only if the text up to it is a balanced word closed by the matching bracket |
| Brackets.BackwardFindsPartner | scripts/cpplint/cpplint.py:2176-2234 | the same for a plain stack scan to the left |
| Brackets.PartnerIsUnique | scripts/cpplint/cpplint.py:5297-5327 | a bracket has at most one partner on either side |
| ExpressionMatcher.PopAngles | scripts/cpplint/cpplint.py:2081-2082 | the loop drops exactly the pending angles on top of the stack |
| ExpressionMatcher.ReadForward | scripts/cpplint/cpplint.py:2051-2110 | one turn of the forward loop is one step of the token machine: push, pop, ignore, fail or close |
| ExpressionMatcher.FindEndOfExpressionInLine | scripts/cpplint/cpplint.py:2038-2113 | the loop over one line reports what the token machine reports: an end, a failure, or the stack at the end of the line |
| ExpressionMatcher.CloseExpression | scripts/cpplint/cpplint.py:2116-2157 | line after line with the stack carried over; `<<` and `<=` are refused; without an end the number is that of the lines, the position is -1, and the text is that of the line on which the scan stopped |
| ExpressionMatcher.ReadBackward | scripts/cpplint/cpplint.py:2176-2232 | one turn of the backward loop, which may step over two characters at once |
| ExpressionMatcher.FindStartOfExpressionInLine | scripts/cpplint/cpplint.py:2160-2234 | the backward loop over one line reports a start, a failure, or the stack at the beginning of the line |
| ExpressionMatcher.ReverseCloseExpression | scripts/cpplint/cpplint.py:2237-2272 | the backward match over the lines; without a start it reports line 0 and position -1, with the text of the line on which the scan stopped |
| BracketMatching.CloseFromIsFlat | scripts/cpplint/cpplint.py:2142-2154 | scanning line by line with a carried stack is one scan over all lines laid end to end |
| BracketMatching.ForwardIgnoresAngles | scripts/cpplint/cpplint.py:2051-2110 | with a real bracket at the bottom of the stack the angle-aware machine is the plain scanner, its stack being the plain one with angles strewn in |
| BracketMatching.CloseIsPlainScan | scripts/cpplint/cpplint.py:2038-2157 | for `( [ {` the answer over any number of lines is that of a plain bracket scan on the flattened text that ignores `<`, `>` and `;` |
| BracketMatching.CloseFindsPartner | scripts/cpplint/cpplint.py:2116-2157 | for `( [ {` an end is reported if and only if it lies just past the partner that the grammar gives |
| BracketMatching.BackIgnoresAngles | scripts/cpplint/cpplint.py:2176-2232 | backward too, the heuristics for `<`, `<<`, `>`, `->`, `>=` and `;` never change the answer for brackets |
| BracketMatching.OpenFindsPartner | scripts/cpplint/cpplint.py:2237-2272 | for `) ] }` a start is reported if and only if it is the partner that the grammar gives |
| BracketMatching.MatchersUndoEachOther | scripts/cpplint/cpplint.py:2038-2272 | from an opener at (l, p) the end (m, e) is reported if and only if from the closer at (m, e - 1) the start (l, p) is reported |
| BracketMatching.CloseEndsOnCloser | scripts/cpplint/cpplint.py:2088-2094 | every end reported for `( [ {` lies just past a closer of the same kind |
| AngleMatching.BaseIsInert | scripts/cpplint/cpplint.py:2076-2097 | what lies under a bracket on the stack plays no part until that bracket is closed |
| AngleMatching.AngleFromOutside | scripts/cpplint/cpplint.py:2051-2110 | from any place outside all brackets the token machine finds a `>` if and only if that one brings the pending angles outside brackets to zero with no semicolon before it |
| AngleMatching.CloseFindsAngle | scripts/cpplint/cpplint.py:2116-2157 | a pushed `<` is reported to end at e if and only if the character before e is the `>` that closes the list in that independent reading |
| AngleMatching.TemplateMatchIsSound | scripts/cpplint/cpplint.py:2056-2110 | a reported argument list ends on `>`, its brackets are balanced, and no `;` lies outside them |
| AngleMatching.UnpushedLessPassesOver | scripts/cpplint/cpplint.py:2056-2110 | a `<` that is not pushed matches what the first opener or pushed `<` behind it on the line matches, if no closer and no semicolon comes before, and nothing otherwise |
| AngleMatching.UnpushedLessEnds | scripts/cpplint/cpplint.py:2056-2110 | so it ends on a `>` if that place holds a pushed `<`, and on the partner of a bracket otherwise |
| AngleMatching.UnpushedLessMatchesABracket | scripts/cpplint/cpplint.py:2058-2064 | an instance: on `a<<(b)` a scan from the second `<` reports the end of the parentheses |
| BackwardAngles.MirrorBalanced | scripts/cpplint/cpplint.py:2160-2165 | a text is balanced if and only if its mirror image is, which makes the backward scan a forward one |
| BackwardAngles.ScanBackIsTokens | scripts/cpplint/cpplint.py:2176-2234 | read from right to left and mirrored, the backward loop is the forward token machine, its double steps being tokens without effect |
| BackwardAngles.OpenFromIsTokens | scripts/cpplint/cpplint.py:2262-2269 | so it is over any number of lines with the stack carried over |
| BackwardAngles.OpenFindsAngle | scripts/cpplint/cpplint.py:2237-2272 | for a `>` that is pushed a start is reported if and only if the `<` there closes the list in the independent reading of the mirrored text |
| BackwardAngles.BackwardTemplateMatchIsSound | scripts/cpplint/cpplint.py:2183-2232 | a reported start of an argument list is a `<`, its brackets are balanced, and no `;` lies outside them |
| BackwardAngles.SkippedGreaterPassesOver | scripts/cpplint/cpplint.py:2176-2232 | the match of any `>` is that of the first closer or counted `>` that the scan comes to on the line, stepping over doubles, if no opener and no semicolon comes before, and there is none otherwise; a counted `>` is that place itself |
| AngleWeights.TokenWeighs | scripts/cpplint/cpplint.py:2056-2110 | forward, the second half of a `<<` weighs as much as a `>`, a `<` behind the word operator and a `>` behind it or behind `-` weigh nothing, and all others count; the word is told by its letters and a word boundary |
| AngleWeights.BackTokenWeighs | scripts/cpplint/cpplint.py:2182-2204 | backward, of a run of `<` only the first one counts, if the run is odd; a `>` weighs nothing behind `-`, in a spaced `>=` and behind the word operator |
| AngleWeights.RefusedIff | scripts/cpplint/cpplint.py:2140-2141 | a scan is refused exactly where `<<` or `<=` begins |
| AngleWeights.SkippedIff | scripts/cpplint/cpplint.py:2186-2190 | the backward scan steps over a `>` exactly in these cases |
| AngleWeights.CloseFindsList | scripts/cpplint/cpplint.py:2116-2157 | from a counted `<` the end is e if and only if the character before e is a counted `>`, the text between is balanced, the weights outside brackets sum to nothing there and never to less before, and no `;` stands outside brackets |
| AngleWeights.OpenFindsList | scripts/cpplint/cpplint.py:2237-2272 | the same for the backward match from a counted `>` |
| AngleWeights.ShiftEndsInsideList | scripts/cpplint/cpplint.py:2058-2063 | an instance: `Foo<1 << 3> x;` ends at 11, since the two halves of the shift make up for each other |
| AngleWeights.OperatorLessIsPassed | scripts/cpplint/cpplint.py:2064-2066 | an instance: in `f<operator< >` the `<` behind the word is passed over |
| AngleRoundTrip.CountsAndDrift | scripts/cpplint/cpplint.py:2038-2234 | at every place outside brackets the pending angles of the backward scan are those of the forward scan plus the drift, which is what the two read differently from there on |
| AngleRoundTrip.CountedAnglesUndoIff | scripts/cpplint/cpplint.py:2038-2272 | for angles that both scans count, given a forward match, the backward match leads back if and only if it counts the `<`, the drift sums up to nothing, and it never outweighs the pending angles |
| AngleRoundTrip.CountedAnglesUndoBackIff | scripts/cpplint/cpplint.py:2038-2272 | for angles that both scans count, given a backward match, the forward match leads back under the mirrored condition, again an if and only if |
| AngleRoundTrip.AnglesUndoIff | scripts/cpplint/cpplint.py:2038-2272 | given a forward match from any `<`, the backward match leads back if and only if it ends on a `>`, the backward scan from there takes up a list, there or further left, the text between is balanced, the `<` is counted, and the drift makes up for what is pending forward and never outweighs it |
| AngleRoundTrip.AnglesUndoBackIff | scripts/cpplint/cpplint.py:2038-2272 | given a backward match from any `>`, the forward match leads back if and only if it starts on a `<` that is not refused, the forward scan takes up a list, there or further right, and the mirrored conditions hold |
| AngleRoundTrip.AnglesDoNotUndoEachOther | scripts/cpplint/cpplint.py:2096-2103 | an instance: on `a<b >= c` the forward scan ends on the `>`, and the backward scan from it takes up no list and finds nothing |
| AngleRoundTrip.NorDoTheyBackward | scripts/cpplint/cpplint.py:2139-2141 | an instance: on `a<=b>` the backward scan starts the list at the `<`, which the forward scan refuses |
| AngleRoundTrip.PlainAnglesUndo | scripts/cpplint/cpplint.py:2038-2272 | on lines without shifts, spaced `>=` and angles behind `operator` the two matchers undo each other on every argument list that begins with no `<=` and ends with no `->` |
| TextInside.GetTextInside | scripts/cpplint/cpplint.py:5274-5327 | the text up to the partner of the opening punctuation if the grammar gives one, and None if and only if the pattern is missing or there is no partner |
| TextInside.TextIsUnique | scripts/cpplint/cpplint.py:5313-5327 | only one balanced text is followed by the matching closer |
| TextInside.AgreesWithCloseExpression | scripts/cpplint/cpplint.py:2116-2157 | on one line the expression matcher ends where the text extraction ends |
| RawStrings.FirstOpener | scripts/cpplint/cpplint.py:1858-1858 | the leftmost place at which a raw string opens |
| RawStrings.CleanseLine | scripts/cpplint/cpplint.py:1828-1874 | one turn of the outer loop, with the inner loop that rewrites the line until nothing opens or a string stays open |
| RawStrings.CleanseRawStrings | scripts/cpplint/cpplint.py:1806-1879 | the whole pass, with the open delimiter carried from line to line |
| RawStrings.ReplacementShortens | scripts/cpplint/cpplint.py:1863-1868 | every in-line replacement shortens the line by at least three characters |
| RawStrings.LineCountIsKept | scripts/cpplint/cpplint.py:1826-1876 | there are as many lines after the pass as before |
| RawStrings.RewriteSettles | scripts/cpplint/cpplint.py:1846-1874 | a rewritten line opens no raw string outside a comment, even if its last one was never closed |
| RawStrings.NothingRawRemains | scripts/cpplint/cpplint.py:1826-1876 | no line of the output opens a raw string outside a comment |
| RawStrings.CleansingIsIdempotent | scripts/cpplint/cpplint.py:1806-1879 | a second pass changes nothing, also for strings over many lines and strings that never end |
| RawStrings.InsideIsBlanked | scripts/cpplint/cpplint.py:1838-1840 | lines inside an open raw string become empty strings |
| RawStrings.LiteralIsErased | scripts/cpplint/cpplint.py:1809-1818 | of a literal over many lines only its surroundings remain, with empty strings in its place |
| RawLiterals.OpensIff | scripts/cpplint/cpplint.py:1857-1857 | a literal opens exactly where one of the five prefixes stands at a word boundary, with a quote, a delimiter and a parenthesis behind it |
| RawLiterals.LeadsIff | scripts/cpplint/cpplint.py:1858-1860 | the test for a comment holds exactly if the text is made of characters that are no quotes and of quoted pieces, up to two slashes |
| RawLiterals.LiteralOnOneLine | scripts/cpplint/cpplint.py:1857-1868 | with an empty string in the place of a literal the line is cleansed to the same, for every prefix, delimiter and content |
| RawLiterals.LiteralOverLines | scripts/cpplint/cpplint.py:1828-1871 | of a literal over several lines there remain the text before it with an empty string, empty strings, and the leading space of its last line, an empty string and what follows the mark, cleansed again |
| RawLiterals.ClearLineStays | scripts/cpplint/cpplint.py:1857-1873 | a line in which nothing opens outside a comment stays as it is |
| MultiLineComments.FindNextMultiLineCommentStart | scripts/cpplint/cpplint.py:1882-1890 | the first line from a given one on that opens a comment it does not close |
| MultiLineComments.FindNextMultiLineCommentEnd | scripts/cpplint/cpplint.py:1893-1899 | the first line from a given one on that closes a comment |
| MultiLineComments.StartIff | scripts/cpplint/cpplint.py:1885-1887 | a line opens a comment exactly if, behind space, it begins with `/*` and no `*/` stands behind those two |
| MultiLineComments.EndIff | scripts/cpplint/cpplint.py:1896-1896 | a line closes one exactly if `*/` stands on it with nothing but space behind |
| MultiLineComments.RemoveMultiLineCommentsFromRange | scripts/cpplint/cpplint.py:1902-1907 | exactly the lines of the range become empty comments |
| MultiLineComments.RemoveMultiLineComments | scripts/cpplint/cpplint.py:1910-1923 | the array ends with exactly the lines inside comments replaced; at most one error, exactly when some start has no end, and at the first such line |
| MultiLineComments.CoveredIsInRange | scripts/cpplint/cpplint.py:1910-1923 | every changed line lies between a start and the first end behind it |
| MultiLineComments.NoStartIsLeft | scripts/cpplint/cpplint.py:1910-1923 | without an error no line is left that opens an unterminated comment |
| MultiLineComments.RemovalIsIdempotent | scripts/cpplint/cpplint.py:1910-1923 | a second pass changes nothing, with or without an error |
| CollapseStrings.TurnShrinks | scripts/cpplint/cpplint.py:1995-2033 | every turn of the loop shortens the remaining text, behind a number because the head holds its digit |
| CollapseStrings.CollapseOneQuote | scripts/cpplint/cpplint.py:1995-2033 | one turn of the loop keeps the result, and shortens the rest or ends the loop |
| CollapseStrings.CollapseAllQuotes | scripts/cpplint/cpplint.py:1991-2035 | the loop ends and collects what the turns put out |
| CollapseStrings.CollapseStringsOf | scripts/cpplint/cpplint.py:1971-2035 | include lines are left alone; otherwise escapes go first and quotes after them |
| CollapseStrings.CollapseIsSubsequence | scripts/cpplint/cpplint.py:1971-2035 | the result arises from the line by leaving characters out, so it is never longer |
| CollapseStrings.QuoteLoopIsIdempotent | scripts/cpplint/cpplint.py:1991-2035 | the loop applied to its own result changes nothing |
| CollapseStrings.EscapesCanReappear | scripts/cpplint/cpplint.py:1984-1987 | an instance: a line on which a second collapse goes further than the first |
| CollapseLaws.EndsInNumberIff | scripts/cpplint/cpplint.py:2021-2021 | a head counts as a number exactly if it ends, from a word boundary on, in 0, 0b, 0B, 0x, 0X or a digit from 1 to 9 with hexadecimal digits behind it |
| CollapseLaws.StringGoes | scripts/cpplint/cpplint.py:2002-2007 | a string becomes `""` whatever it holds, and the rest is collapsed as if alone |
| CollapseLaws.CharacterGoes | scripts/cpplint/cpplint.py:2025-2029 | so does what stands in single quotes, unless a number stands before it |
| CollapseLaws.UnmatchedQuoteStays | scripts/cpplint/cpplint.py:2008-2012 | an unmatched quote leaves the rest of the text as it is |
| CollapseLaws.SeparatorsGo | scripts/cpplint/cpplint.py:2021-2024 | a number keeps its digits and loses the separators between them, however many, and the rest is collapsed as if alone |
| CollapseLaws.SeparatorOfNothing | scripts/cpplint/cpplint.py:2021-2024 | a quote behind a number that separates nothing is read again, as if no number stood before it |
| CollapseLaws.SeparatorInThousand | scripts/cpplint/cpplint.py:2021-2024 | an instance: `1'000` becomes `1000` |
| CollapseLaws.SimpleEscapeGoes | scripts/cpplint/cpplint.py:1770-1771 | a backslash and one of the characters that it takes along alone are dropped |
| CollapseLaws.NumericEscapeGoes | scripts/cpplint/cpplint.py:1770-1771 | so are a backslash and all digits behind it |
| CollapseLaws.HexEscapeGoes | scripts/cpplint/cpplint.py:1770-1771 | and `\x` with all hexadecimal digits behind it |
| CollapseLaws.OtherBackslashStays | scripts/cpplint/cpplint.py:1770-1771 | any other backslash stays |
| CollapseTwice.SecondCollapseIff | scripts/cpplint/cpplint.py:1971-2035 | a second collapse changes nothing if and only if the line or its collapse is an include line, or no `\x` outside quotes is followed by nothing but escapes and then a hexadecimal digit |
| IncludeLines.HeadDecides | scripts/cpplint/cpplint.py:5066-5066 | a line with the head of an include, spelled out by its characters, is an include line exactly if a closing character follows |
| IncludeLines.IncludeHasHead | scripts/cpplint/cpplint.py:5066-5066 | every include line has such a head |
| IncludeLines.CollapsedIncludeIff | scripts/cpplint/cpplint.py:1981-2035 | a text with its quotes collapsed is an include line if and only if it has the head of one, and behind it a closing `>` or `"` that is not collapsed away |
| IncludeLines.CollapseTwiceIff | scripts/cpplint/cpplint.py:1971-2035 | the same with that condition on the line itself in place of the one on its collapse |
| ConstructorArgs.RegroupArgs | scripts/cpplint/cpplint.py:3440-3450 | the in-place loop computes the grouping, or runs off the list |
| ConstructorArgs.SplitJoins | scripts/cpplint/cpplint.py:3438-3438 | splitting at commas and joining with commas gives the text back |
| ConstructorArgs.PiecesHoldNoComma | scripts/cpplint/cpplint.py:3438-3438 | no piece holds a comma |
| ConstructorArgs.RegroupIsGrouping | scripts/cpplint/cpplint.py:3442-3450 | the loop gives a list if and only if that list joins consecutive pieces, each time as few as close a group |
| ConstructorArgs.RegroupPreservesText | scripts/cpplint/cpplint.py:3442-3450 | the joined text is preserved and no argument has more `<` than `>` or more `(` than `)`, by the counts of the characters |
| ConstructorArgs.RegroupedTextIsOriginal | scripts/cpplint/cpplint.py:3435-3450 | joining the regrouped arguments gives the argument text itself |
| ConstructorArgs.RunsOffIff | scripts/cpplint/cpplint.py:3445-3448 | the loop reads past the end if and only if some group that it starts stays open to the end |
| ConstructorArgs.ClosedSuffixesSuffice | scripts/cpplint/cpplint.py:3445-3448 | it does not if every suffix of the pieces closes at least as much as it opens |
| ConstructorArgs.ComparisonRunsOff | scripts/cpplint/cpplint.py:3445-3448 | a comparison in a default argument makes it read past the end |
| Nesting.ErasingBranchesPreservesStack | scripts/cpplint/cpplint.py:3073-3127 | for any lines, given what each line says: wherever no #else is open the stack is the one that the kept lines alone lead to, and inside a branch that is not kept the outermost checkpoint holds that stack |
| Nesting.LeastNetIsLeast | scripts/cpplint/cpplint.py:3255-3292 | the least prefix net is attained and is below every prefix net |
| Nesting.DepthIsNetAboveLeast | scripts/cpplint/cpplint.py:3255-3292 | without namespaces, classes and directives the depth is the net number of brace tokens minus the least prefix net, so stray `}` are absorbed |
| LinePatterns.TokensCountBraces | scripts/cpplint/cpplint.py:3255-3292 | the tokens that the character loop finds on a line have the net and the least net of the braces in its text |
| LinePatterns.LeastBraceNetIsLeast | scripts/cpplint/cpplint.py:3255-3292 | that least net of a text is attained by some beginning of it and is below every other |
| LineReading.DepthCountsBraces | scripts/cpplint/cpplint.py:3130-3292 | on a file without directives and heads the depth is the number of `{` minus the number of `}` in its text, minus the least that this comes to over all beginnings |
| PatternLaws.DirectiveIsRead | scripts/cpplint/cpplint.py:3095-3118 | a hash and a word with any space around them: the directive depends on the word alone |
| PatternLaws.OtherIsNoDirective | scripts/cpplint/cpplint.py:3095-3118 | no line without a hash in front is a directive |
| PatternLaws.NamespaceIsRead | scripts/cpplint/cpplint.py:3185-3195 | the word namespace, its name and what follows |
| PatternLaws.OtherIsNoNamespace | scripts/cpplint/cpplint.py:3185-3187 | any other word is no namespace head |
| PatternLaws.AsmIsRead | scripts/cpplint/cpplint.py:854-856 | an assembly head is an assembly word and then a group |
| PatternLaws.VolatileAsmIsRead | scripts/cpplint/cpplint.py:854-856 | or has one of two words in between |
| PatternLaws.ExternIsRead | scripts/cpplint/cpplint.py:3269-3269 | the word extern, a string, and then a brace |
| PatternLaws.BareColonShows | scripts/cpplint/cpplint.py:2843-2846 | a colon with none beside it is a bare one |
| PatternLaws.PairedColonsAreNone | scripts/cpplint/cpplint.py:2843-2846 | colons with others beside them are not |
| PatternLaws.AccessIsRead | scripts/cpplint/cpplint.py:3232-3237 | the access read is that of the last specifier on the line: one of four words at a word boundary, then a colon that is not doubled, behind space, or behind space and the word slots |
| PatternLaws.NoAccessIsRead | scripts/cpplint/cpplint.py:3232-3236 | none is read exactly if there is none |
| ClassHeads.ClassHeadIsRead | scripts/cpplint/cpplint.py:3202-3205 | a keyword, any number of decorating words, and a qualified name are read as that name and keyword, with the end behind the name |
| ClassHeads.TemplateHeadIsRead | scripts/cpplint/cpplint.py:3202-3205 | behind a template head it is the head behind the last `>` that has one |
| ClassHeads.OtherWordIsNoHead | scripts/cpplint/cpplint.py:3202-3205 | a line whose first word is another one has no head |
| ClassHeads.NamelessIsNoHead | scripts/cpplint/cpplint.py:3202-3205 | nor has one where no word follows the first one |
| BlockWalk.LineWalks | scripts/cpplint/cpplint.py:3130-3292 | every line of a file that is no directive changes the heads, lines, begun marks and parentheses of the blocks as a walk over its characters does: `{` begins a waiting head or a block, `;` and `)` take a waiting head away, `}` takes the innermost away |
| BlockWalk.FileWalks | scripts/cpplint/cpplint.py:3130-3292 | so a whole file without directives is walked over from its first line to its last |
| BlockLaws.HeadIsDecided | scripts/cpplint/cpplint.py:3255-3292 | in the walk a waiting head is decided by the first mark behind it |
| BlockLaws.DeclarationGoes | scripts/cpplint/cpplint.py:3276-3286 | a class head whose first mark is `;` or `)` leaves the stack as it was but for the counted parentheses |
| BlockLaws.DefinitionBegins | scripts/cpplint/cpplint.py:3262-3268 | one whose first mark is `{` leaves exactly one begun block with its head |
| BlockLaws.DefinitionOnOneLine | scripts/cpplint/cpplint.py:3255-3292 | one that is closed on its line leaves nothing |
| BlockLaws.WaitingHeadIsDecided | scripts/cpplint/cpplint.py:3255-3292 | a head that waits from an earlier line is decided in the same way |
| BlockLaws.TextStays | scripts/cpplint/cpplint.py:3276-3286 | inside a block that has begun, `;` and `)` change nothing but the count |
| BlockLaws.NamespacesBegin | scripts/cpplint/cpplint.py:3184-3195 | namespace heads with their braces become blocks, one in the other |
| BlockLaws.BegunCountsBraces | scripts/cpplint/cpplint.py:3130-3292 | on a file with any class heads, taken or not, but no directives and namespaces, the blocks that have begun are the `{` minus the `}`, above the least that this comes to, if no `}` comes where a head waits |
| BlockFields.QuietLineOnTop | scripts/cpplint/cpplint.py:3154-3254 | a line without heads and braces touches the innermost block only: its parentheses, its assembly state, and the access of a class |
| BlockFields.ClassWaits | scripts/cpplint/cpplint.py:2812-2846 | a new class has its name and kind, is private or public unless the line says otherwise, is derived exactly if a bare colon stands on the line, and seems to end on the first line behind which the braces from its head on are even, or on line 0 |
| BlockFields.BraceBegins | scripts/cpplint/cpplint.py:3269-3274 | a brace where no head waits begins an extern "C" block, an assembly block or a plain one |
| BlockFields.ClassFooLeavesNothing | scripts/cpplint/cpplint.py:3276-3286 | an instance: `class Foo;` leaves no block |
| TemplateLookahead.InTemplateArgumentList | scripts/cpplint/cpplint.py:3021-3071 | the loop gives the verdict of the scan, which steps over whole argument lists with the expression matcher |
| TemplateLookahead.SignDecides | scripts/cpplint/cpplint.py:3034-3070 | the first of `{ } ;` says no, the first of `> = [ ] .` says yes, and behind a `<` the scan goes on where its list ends, or says no if it has no end |
| TemplateLookahead.NoSignGoesOn | scripts/cpplint/cpplint.py:3034-3062 | a line without these is passed over, and behind the last line the answer is no |
| TemplateLookahead.VerdictIsLook | scripts/cpplint/cpplint.py:3021-3071 | the verdict is yes if and only if the scan is decided so within the lines there are; undecided at the end of the file counts as no |
| TemplateLookahead.LookShifts | scripts/cpplint/cpplint.py:3021-3071 | lines before the class head play no part in it |
| TemplateLookahead.UndecidedGoesEitherWay | scripts/cpplint/cpplint.py:3021-3071 | any scan that is undecided at the end of some lines can be decided either way by two more lines |
| TemplateLookahead.VerdictIsSafeIff | scripts/cpplint/cpplint.py:3021-3071 | the verdict is the same whatever lines are put in or left out behind the given ones if and only if it is decided within them |
| NestingErasure.ErasurePreservesIff | scripts/cpplint/cpplint.py:3073-3226 | on all kept lines the stacks behind class heads agree with those of the kept lines alone if and only if every class head found outside parentheses gets the same verdict in both texts and, where ends count, the same end if it is taken; then the final stacks agree |
| NestingErasure.ErasureIsSafe | scripts/cpplint/cpplint.py:2822-3292 | if no class head on a kept line looks into an erased branch before it is decided, the final stacks agree, but for where classes seem to end; and in that too if no search for it looks so far |
| NestingErasure.HeadIsSafeIff | scripts/cpplint/cpplint.py:3205-3226 | the condition on a head is exact: its verdict is the same whatever is erased and whatever follows if and only if it is decided before the first erased line |
| NestingErasure.EndIsSafeIff | scripts/cpplint/cpplint.py:2834-2841 | so is the one on the end of a class: it is the same whatever is erased and whatever follows if and only if it is found before the first erased line |
| NestingErasure.UnsafeHeadShows | scripts/cpplint/cpplint.py:3205-3226 | for every head that is not, there are two erased branches that make the stacks differ at once |
| ErasureExample.ErasureChangesTheStack | scripts/cpplint/cpplint.py:3021-3226 | for a whole family of files the full text ends in a plain block and the kept lines in a class |
| ErasureExample.ExampleMisleads | scripts/cpplint/cpplint.py:3050-3054 | a class head before an `#if` whose `#else` branch is `[[x]]` belongs to it |
| ClassEndExample.ErasureMovesTheEnd | scripts/cpplint/cpplint.py:2834-2841 | for a whole family of files the class seems to end in the erased branch of the full text, and nowhere in the kept lines |
| ClassEndExample.ExampleMisplaces | scripts/cpplint/cpplint.py:2834-2841 | a class whose `}` stands in an `#else` branch belongs to it |
| ClassEndExample.ExampleIsFile | scripts/cpplint/cpplint.py:3095-3118 | the five lines of that file are read with these directives |
| NestingState.DeepCopy | scripts/cpplint/cpplint.py:3097-3109 | a copied stack has the same values in new objects |
| NestingState.NestingState.UpdatePreprocessor | scripts/cpplint/cpplint.py:3073-3127 | the objects change as the values do, and no block is ever in two places |
| NestingState.NestingState.ConsumeClassHead | scripts/cpplint/cpplint.py:3202-3226 | a class is pushed exactly if a head is found outside parentheses and the scan over the following lines does not take it for a template argument; its last line is the one found by counting braces |
| NestingState.FindLastLine | scripts/cpplint/cpplint.py:2834-2841 | the loop finds the first line after which the braces are even, or 0 |
| NestingState.NestingState.ActOnStack | scripts/cpplint/cpplint.py:3154-3292 | what the text of a line, with the lines behind it, does to the stack: parentheses, namespaces, class head, access, braces |
| NestingState.NestingState.ActBesideCheckpoints | scripts/cpplint/cpplint.py:3097-3109 | writing blocks of the stack leaves every checkpoint as it is |
| NestingState.NestingState.Update | scripts/cpplint/cpplint.py:3130-3292 | one line of a file changes the mutable state as it changes the values, and keeps the ownership of blocks |
| NestingState.NestingState.ProcessLines | scripts/cpplint/cpplint.py:3130-3292 | all lines of a file change it as the run over the lines read from the file does |
| CdmBackend.CdmBackend.CreateMediaKeys | library/source/CdmBackend.cpp:251-266 | keys exist afterwards exactly if the factory gave some; without a factory nothing changes |
| CdmBackend.CdmBackend.NotifyApplicationState | library/source/CdmBackend.cpp:30-52 | the new state and keys for every notification, also a repeated one and one whose factory fails |
| CdmBackend.CdmBackend.Init | library/source/CdmBackend.cpp:54-73 | the new state and keys and the result of initialize, which yields to an earlier notification |
| CdmBackend.CdmBackend.CreateKeySession | library/source/CdmBackend.cpp:95-107 | whatever happens during the wait, the result and the id come from the media keys if there are any, and otherwise the id stays |
| CdmBackend.KeysExactlyWhenRunning | library/source/CdmBackend.cpp:30-73 | in every reachable state media keys exist exactly when the state is RUNNING |
| CdmBackend.StateIsLastTaken | library/source/CdmBackend.cpp:30-73 | after any series of notifications the state is that of the last one that takes effect, with keys exactly if it is RUNNING; if none does, nothing has changed |
| CdmBackend.InitializeIsNoticedIff | library/source/CdmBackend.cpp:30-73 | an initialize inserted anywhere among notifications changes the final state if and only if it moved the state from UNKNOWN and no later notification takes effect |
| CdmBackend.StartupRaceIsBenign | library/source/CdmBackend.cpp:30-73 | with a factory that succeeds and at least one notification it never does |
| CdmBackend.SessionReachesKeysWhenRunning | library/source/CdmBackend.cpp:95-107 | a request for a key session finds media keys exactly when the wait ends in RUNNING |
| SessionModel.ApplyConcat | library/source/OpenCDMSessionPrivate.cpp:443-450 | two deliveries one after the other are one delivery of both series |
| SessionModel.ApplyKeepsLast | library/source/OpenCDMSessionPrivate.cpp:438-467 | of a series of changes the last one for each key remains, and other keys keep their status |
| SessionLibrary.MessageDispatcher.CreateClient | library/source/MessageDispatcher.cpp:22-43 | a new handle for the client, which is now registered |
| SessionLibrary.MessageDispatcher.Broadcast | library/source/MessageDispatcher.cpp:51-77 | every registered client is afterwards as the message leaves it, and the registrations stay |
| SessionLibrary.MessageDispatcherClient.Destroy | library/source/MessageDispatcher.cpp:29-49 | destroying a handle takes its client off the dispatcher |
| SessionLibrary.OpenCDMSession.Initialize | library/source/OpenCDMSessionPrivate.cpp:86-105 | the session and the registrations afterwards, for a missing backend or dispatcher, a session already initialized, a failing backend and success |
| SessionLibrary.OpenCDMSession.GenerateRequest | library/source/OpenCDMSessionPrivate.cpp:107-132 | it succeeds exactly with a backend, a known type of data, a session id, media keys and their consent |
| SessionLibrary.OpenCDMSession.GetChallengeData | library/source/OpenCDMSessionPrivate.cpp:181-209 | refused, still waiting, or the challenge after all messages that arrived, which is not empty |
| SessionLibrary.OpenCDMSession.CloseSession | library/source/OpenCDMSessionPrivate.cpp:313-338 | on success the handle, the challenge and the key statuses are gone; otherwise nothing changes |
| SessionLibrary.OpenCDMSession.OnLicenseMessage | library/source/OpenCDMSessionPrivate.cpp:401-436 | the challenge is replaced exactly if the id is the session's own |
| SessionLibrary.OpenCDMSession.OnKeyStatusesChanged | library/source/OpenCDMSessionPrivate.cpp:438-457 | the loop applies all changes in order, exactly if the id is the session's own and there is a key-update callback |
| SessionLibrary.ActiveSessions.Create | library/source/ActiveSessions.cpp:30-40 | a new session in its initial state, registered with count 1 |
| SessionLibrary.ActiveSessions.Get | library/source/ActiveSessions.cpp:42-54 | null if and only if no session knows the key; otherwise one that does, its count raised by one |
| SessionLibrary.ActiveSessions.Remove | library/source/ActiveSessions.cpp:56-69 | the count falls by one, the last handle deletes the session and takes it off its dispatcher, and an unknown session changes nothing |
| SessionLibrary.SessionClose | library/source/open_cdm.cpp:354-372 | the three results of closing, each with the state it leaves |
| SessionLibrary.StartOrRollBack | library/source/open_cdm.cpp:170-188 | the new session ends initialized and registered, or the registry and the registrations are as if it had not been created, even if the rollback close fails |
| SessionLibrary.ConstructSession | library/source/open_cdm.cpp:147-193 | all or nothing: exactly one new session at count 1, or the registry and the registrations as before |
| SessionLibrary.DestructSession | library/source/open_cdm.cpp:195-201 | always ERROR_NONE; the count falls by one, the last handle removes the session and takes it off its dispatcher, an unknown one changes nothing |
| SessionRefinement.Close | library/source/OpenCDMSessionPrivate.cpp:313-338 | closeSession does to what a system shows of a session what its steps do: the backend call, the release of the handle, the clearing of the data |
| SessionRefinement.Start | library/source/OpenCDMSessionPrivate.cpp:86-105 | so does initialize: the backend call with its outcome, and the registration |
| SessionRefinement.GiveBack | library/source/ActiveSessions.cpp:56-69 | so does remove: the step of the registry and, at the last handle, the end of the destruction |
| SessionRefinement.Dispatch | library/source/MessageDispatcher.cpp:70-77 | so does a broadcast |
| SessionRefinement.Construct | library/source/open_cdm.cpp:147-193 | so does the construction with its rollback, from any system that keeps the invariant |
| SessionRefinement.ClosingShows | library/source/OpenCDMSessionPrivate.cpp:313-338 | what the steps of closeSession make of a session, its count and its registration |
| SessionRefinement.StartingShows | library/source/OpenCDMSessionPrivate.cpp:86-105 | what the steps of initialize make of them |
| SessionRefinement.RemovingShows | library/source/ActiveSessions.cpp:56-69 | what the steps of remove make of them |
| SessionRuns.StepKeepsInv | library/source/ActiveSessions.cpp:30-69 | every step of every class keeps the invariant that ties registry, handles, registrations and session data together |
| SessionRuns.RunKeepsInv | library/source/MessageDispatcher.cpp:22-77 | the invariant holds after every possible run, also in the middle of a destruction |
| SessionRuns.ClientsAreTheHolders | library/source/MessageDispatcher.cpp:22-49 | in every reachable state a dispatcher's clients are exactly the live sessions that hold a handle to it, and the one under destruction if it still holds its own; no other deleted session is a client |
| SessionTheorems.RegistersAtMostOnce | library/source/OpenCDMSessionPrivate.cpp:93-102 | over any run a session registers at most once, and exactly once if it is initialized |
| SessionTheorems.CountLaw | library/source/ActiveSessions.cpp:35-68 | a count is one plus the gets that returned the session minus the removes, and at least one |
| SessionTheorems.DeletedByBalancingRemove | library/source/ActiveSessions.cpp:56-68 | a session is deleted by the remove that balances its handles and by nothing else |
| SessionTheorems.DeletedOnce | library/source/ActiveSessions.cpp:56-68 | no session is deleted twice |
| SessionTheorems.DeletionHappened | library/source/ActiveSessions.cpp:63-67 | every deleted session has been deleted at some step of the run |
| SessionTheorems.RollbackLeavesNothing | library/source/open_cdm.cpp:172-187 | after a rollback the session lives on if and only if a get handed it out in the meantime; if it is gone, the registry does not know it, and no dispatcher does once its destruction is complete |
| SessionTheorems.DestructionIsMetIff | library/source/ActiveSessions.cpp:56-69 | after a last remove some broadcast can reach the session while it is under destruction, its data being gone, if and only if it is still registered at that remove |
| SessionTheorems.FailedCloseIsMet | library/source/open_cdm.cpp:180-187 | the rollback whose close fails is such a case |
| SessionTheorems.QuiescentForever | library/source/OpenCDMSessionPrivate.cpp:313-338 | a session that is initialized, has no handle and knows no challenge and no key stays so in every continuation of the run; no dispatcher knows it, no get returns it, and it never registers again |
| SessionTheorems.ClosedIsSilentIff | library/source/OpenCDMSessionPrivate.cpp:86-105 | after a successful close a session is silent in every continuation if and only if it had been initialized |
| SessionTheorems.UninitializedCloseReopens | library/source/OpenCDMSessionPrivate.cpp:93-102 | a session closed without having been initialized can be registered again |
| SessionTheorems.UninitializedCloseIsPossible | library/source/CdmBackend.cpp:95-107 | every run can go on to such a session, for any session that is not born yet |
| SessionConstruction.ConstructionGoesThrough | library/source/open_cdm.cpp:147-193 | after any run that is not in the middle of a destruction a construction can go through in one go, and adds exactly one session with one handle, or leaves every session, count and registration as it was |
| SessionErasure.OthersAreARun | library/source/ActiveSessions.cpp:30-69 | leaving out the steps of one session leaves a possible run, with the same other sessions, counts and registrations |
| SessionErasure.ConstructionIsAllOrNothing | library/source/open_cdm.cpp:147-193 | whatever other steps stand between those of a construction, with no get of the session, leaving its steps out leaves a possible run to the same state but for that session; a successful construction leaves it with one handle, a failed one leaves nothing of it |
| SessionConstruction.RollbackUndoes | library/source/open_cdm.cpp:180-187 | closing, whether or not it succeeds, and removing undo an initialized session |
| SessionMessages.KnowsItsMessages | library/source/OpenCDMSessionPrivate.cpp:401-457 | the labels of a run alone determine the id, the registration and the key statuses of every live session |
| SessionMessages.LastStatusWins | library/source/OpenCDMSessionPrivate.cpp:438-467 | with a key-update callback the status of a key is the conversion of the last status delivered for it under the session's id since it was last closed; otherwise it is InternalError |
| SessionMessages.StatusTells | library/source/OpenCDMSessionPrivate.cpp:28-60 | a caller reads Usable if and only if the last status delivered for the key since the last close is USABLE, and so on for the other statuses; InternalError if and only if it is INTERNAL_ERROR, there is none, or there is no callback |
| SessionMessages.FoundIff | library/source/ActiveSessions.cpp:42-54 | with the registry's mutex free, a get may return a session for a key if and only if it is live, has a key-update callback, and the last status delivered to it for that key since it was last closed is not INTERNAL_ERROR |
| SessionMessages.OthersAreUntouched | library/source/MessageDispatcher.cpp:70-77 | a broadcast for another id or another dispatcher leaves a session as it is |
| SessionMessages.ChallengeIsLatest | library/source/OpenCDMSessionPrivate.cpp:401-436 | a challenge is the license message delivered last since the session was last closed |
| SessionMessages.FetchedIsLatest | library/source/OpenCDMSessionPrivate.cpp:205-208 | what getChallengeData returns is not empty and is the message of the one step at which a license message was delivered last |

## Left out

- The regex style checks of the linter, command-line parsing, file reading, header and copyright checks: single-branch text tests or I/O.
- Characters outside ASCII: the classes `\s`, `\w` and `\d` are those of ASCII text.
- The error messages of `CheckEnd` and of the access specifiers, `class_indent`, `check_namespace_indentation` and `previous_stack_top`: they do not act on the stack.
- NestingErasure.ErasureIsSafe: one direction, since an unsafe head may by chance get the same verdict in both texts; the exact conditions are those of ErasurePreservesIff, for given texts, and of HeadIsSafeIff and EndIsSafeIff, for whatever is erased.
- NestingErasure.UnsafeHeadShows: compares the stacks at the class head. They need not differ at the end of the file, since what follows may even them out: in `class Foo)` the parenthesis takes the class away at once.
- SessionRefinement.Shows: one session, its count and its registration; that a call leaves the other sessions alone is said by what the methods may modify and by SessionErasure. `getChallengeData` is not joined to its two steps.
- `CleanseComments`: one search and one substitution on a line.
- User callbacks: the sessions' callbacks are not invoked and so do not call back into the library.
- SessionModel.Message: a license request and a renewal differ only in what the user callback is told, so they are one kind of message, and the URL is dropped.
- The forwarding methods of `CdmBackend`, `OpenCDMSystemPrivate`, `MediaKeysCapabilitiesBackend`, `open_cdm_ext.cpp` and `open_cdm_adapter.cpp`: `CdmBackend.Forward` stands for all of them.
- GStreamer metadata, PlayReady key ids, the CDM's own session id, the last DRM error, and `Logger`: calls into libraries that are not part of this model, or plain fields.
- `IMediaKeys` and its factory are not part of this model: their answers are parameters.
- The one-second wait is left by a notification or by timeout, at a time that the model does not bound; that a waiting thread is ever woken is not stated.
- SessionRuns.Broadcast: delivery to all clients is one step. `get` takes another mutex than the broadcast does, so in the source it may see a broadcast that has reached some of the sessions only; the model has it before or behind.
- SessionLibrary.MessageDispatcher.Broadcast: that each client is called only once is not stated, since a second delivery of the same message would change nothing.
- SessionRuns.Remove: the last remove of a session comes between calls on it, as its callers must see to; other removes may come at any time. A session's address is never used again for another one.
- Destruction of systems and dispatchers.
- The null result of `createSession`: the library's own systems never give it.
- SessionLibrary.StartOrRollBack: in the source these steps stand inside `opencdm_construct_session`; ExpressionMatcher.ReadForward, ExpressionMatcher.ReadBackward, RawStrings.CleanseLine and CollapseStrings.CollapseOneQuote are bodies of loops in the same way, and so are the small methods of NestingState.NestingState in `Update`.
