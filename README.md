# intellij-preprocessor: the comment-directive scanner in Dafny

This project models the core of the IntelliJ plugin `intellij-preprocessor`:
the highlight visitor that walks the line comments of a Java file and
interprets `//#if`, `//#ifdef`, `//#else`, `//#endif` and `//$$` comments.

For each comment the visitor:

- checks that the comment starts with the language's line-comment prefix
  and has a body after it;
- for a `#` comment, splits the body after the sigil at its first run of
  whitespace into the directive word and the rest;
- pushes onto or polls its deque of open blocks (`IF` / `ELSE`);
- adds highlight spans to the holder: the directive keyword, the
  identifier and number operands of `#if` conditions, the identifier of
  `#ifdef`, the tokens of `$$` code, or an error over the whole comment.

The `#if` condition is split at every `&&` and `||`. Each term is located
in the comment with a forward-moving `indexOf`, then matched against the
regular expression `(.+)(<=|>=|<|>)(.+)`. Each operand is classified as a
number when its trimmed text parses as a 32-bit `Int`, and as an
identifier otherwise.

Modules:

- `Wrappers`: `Option`.
- `Preprocessor`: the `PreprocessorState` and `PreprocessorDirective`
  enumerations, the keyword of each directive, the `ALLOWED_TYPES`
  allow-list and `suitableForFile`.
- `Text`: the JVM string primitives the visitor relies on, written out.
  These are the `\s+` split with limit 2, `Pattern.split` on `\|\||&&`,
  `String.indexOf(sub, from)`, `trim()`, `toIntOrNull()` and ASCII
  upper-casing.
- `Condition`: the `find` of `(.+)(<=|>=|<|>)(.+)` written as the
  backtracking the regex engine performs. On a term without line
  terminators it is proved to take the rightmost operator position,
  preferring `<=`/`>=` there. A line terminator (`\n`, `\r`, U+0085,
  U+2028, U+2029) stops `.`, so on a term holding one the match can end
  before it and need not take the rightmost operator.
- `Highlight`: the annotation messages (a `Message` value and the text
  `MessageText` gives it), spans and the part of the comment each one
  covers, the condition loop (a method with
  its loop invariant, specified by a function), `highlightCodeBlock` over
  an abstract token list, and the effect of one comment on the deque and
  the holder as functions (`NextStates`, `AddedSpans`). Also the class
  `Visitor`, whose fields are the deque and the holder and whose `Visit`
  method is proved to do what those functions say. Over a whole file,
  `ScanStates` and `ScanSpans` fold the visitor over the comments.
- `Nesting`: a file of balanced `#if`/`#ifdef` blocks, each with at most
  one `#else` and closed by `#endif`, from any deque returns to that
  deque and never gets "must have an opening if"; when every directive
  has exactly the arguments it needs and every condition term is a
  comparison, it gets no error at all.
- `Examples`: worked examples on concrete comments, among them the
  `if`/`else`/`endif` block and a stray `endif`.

The host's lexer is a parameter `lexer: string -> seq<Token>`. The
comment text, its document offset and the line-comment prefix (absent
when the language has none) are inputs of `Visit`.

## Behaviour of the code worth knowing

The model follows the code:

- `#else` always pushes `ELSE` after polling, even when the deque was
  empty or its head was `ELSE`, so the deque never shrinks on `else`.
- The deque is a field of the visitor. `analyze` never clears it: only a
  fresh visitor from `clone()` starts empty.
- The condition is split at every `&&` and `||`, not only the first.
- The relational pattern's first group is greedy. On a term without
  line terminators the operator taken is at the rightmost position that
  leaves both sides non-empty, not the leftmost: in `a<b<c` the left side
  is `a<b`. In `a<b` U+2028 `c>d` the match is `a`, `<`, `b`: neither side
  may cross the line separator.
- The keyword span of `#if` is added after the condition spans, not
  before.
- The invalid-condition message names the trimmed term. Its span starts
  at the untrimmed term's position and is as long as the trimmed term, so
  it covers the trimmed term only when the term does not start with
  whitespace; otherwise it sits left of the text it names.
- The identifier span of `#ifdef` starts seven characters after the
  prefix. After more than one whitespace character between `ifdef` and
  the identifier it starts inside the whitespace.
- `#if ` followed only by whitespace is not "missing a condition": the
  split yields an empty condition, which is reported as an invalid
  condition `""`.
- `# if` (a space after the sigil) is the unknown directive `""`.
- The `$$` keyword span is three characters long (`1 + |"$$"|`), so for
  the comment `//$$` it ends one past the end of the comment.

## Model

| member | source | states |
|---|---|---|
| Preprocessor.ParseKeyword | src/main/kotlin/dev/falsehonesty/Preprocessor.kt:11-16 | every directive kind is recognised from its own keyword, so the four keywords are distinct and each kind is reachable by the dispatch |
| Preprocessor.ParseDirectiveExactly | src/main/kotlin/dev/falsehonesty/PreprocessorHighlightVisitor.kt:69-150 | a word is a directive exactly when it is one of `if`, `ifdef`, `else`, `endif` (case-sensitive); every other word falls to the unknown-directive branch |
| Preprocessor.ParseDirective | src/main/kotlin/dev/falsehonesty/PreprocessorHighlightVisitor.kt:69-150 | a recognised word is the keyword of the directive returned |
| Preprocessor.SuitableExactlyForJava | src/main/kotlin/dev/falsehonesty/PreprocessorHighlightVisitor.kt:33-35 | a file type is handled exactly when its name is `java` in any mix of letter case; the test depends on the type name alone |
| Preprocessor.SuitableForFile | src/main/kotlin/dev/falsehonesty/PreprocessorHighlightVisitor.kt:33-35 | `suitableForFile`: the upper-cased file type name is on the allow-list (its property is `SuitableExactlyForJava`) |
| Text.ToUpper | src/main/kotlin/dev/falsehonesty/PreprocessorHighlightVisitor.kt:34 | upper-casing keeps the length and maps each character on its own |
| Text.SplitAtWhitespace | src/main/kotlin/dev/falsehonesty/PreprocessorHighlightVisitor.kt:67 | the split yields one piece (the whole text) exactly when there is no whitespace; otherwise a whitespace-free first piece, the rest after the first run, and only whitespace between them |
| Text.SplitAtRun | src/main/kotlin/dev/falsehonesty/PreprocessorHighlightVisitor.kt:67 | a text made of a word, a run of whitespace and a rest not starting with whitespace splits into exactly the word and the rest |
| Text.NextConnective | src/main/kotlin/dev/falsehonesty/PreprocessorHighlightVisitor.kt:253-255 | the position found is the first `&&` or `||` at or after the start, or the end when there is none |
| Text.SplitConnectives | src/main/kotlin/dev/falsehonesty/PreprocessorHighlightVisitor.kt:79 | the pieces joined with the connectives between them give back the text, each connective is the first one after its piece, and no piece contains a connective |
| Text.SplitConnectivesUnique | src/main/kotlin/dev/falsehonesty/PreprocessorHighlightVisitor.kt:79 | any splitting with those properties is the split itself |
| Text.JoinedUnique | src/main/kotlin/dev/falsehonesty/PreprocessorHighlightVisitor.kt:253-255 | two splittings of the same text at successive first connectives are equal |
| Text.SplitTwoComparisons | src/main/kotlin/dev/falsehonesty/PreprocessorHighlightVisitor.kt:79 | `a < b && c > 1` splits into `a < b ` and ` c > 1`, keeping the spaces |
| Text.OccursAtSlice | src/main/kotlin/dev/falsehonesty/PreprocessorHighlightVisitor.kt:83 | the character-by-character comparison `indexOf` makes holds exactly when the slice at that position equals the searched text |
| Text.IndexOfFromFirst | src/main/kotlin/dev/falsehonesty/PreprocessorHighlightVisitor.kt:83 | the search from a position returns the first occurrence at or after it, or -1 when there is none |
| Text.IndexOfFirst | src/main/kotlin/dev/falsehonesty/PreprocessorHighlightVisitor.kt:83 | `indexOf(sub, from)` clamps `from` to the string and returns the first occurrence at or after it; it returns -1 exactly when there is no occurrence from the clamped start |
| Text.IndexOf | src/main/kotlin/dev/falsehonesty/PreprocessorHighlightVisitor.kt:83 | `indexOf(sub, from)`: the search from `from` clamped to the string (its property is `IndexOfFirst`) |
| Text.Trim | src/main/kotlin/dev/falsehonesty/PreprocessorHighlightVisitor.kt:198 | `trim()` never makes the text longer; what it keeps is stated by `TrimSlice` |
| Text.TrimSlice | src/main/kotlin/dev/falsehonesty/PreprocessorHighlightVisitor.kt:198 | what `trim()` keeps is the slice of the input between its leading and trailing whitespace: everything cut on either side is whitespace and the result neither starts nor ends with whitespace |
| Text.ToIntOrNull | src/main/kotlin/dev/falsehonesty/PreprocessorHighlightVisitor.kt:198 | `toIntOrNull()` as the code branches on the first character: empty text, a lone sign and any other character below `0` give no value (its contract is stated by `ToIntOrNullValue`) |
| Text.ToIntOrNullValue | src/main/kotlin/dev/falsehonesty/PreprocessorHighlightVisitor.kt:198 | `toIntOrNull()` yields a value exactly for an optional sign followed by one or more decimal digits whose value lies in the 32-bit `Int` range, and that value is the literal's |
| Text.DigitsValueOfNatToText | src/main/kotlin/dev/falsehonesty/PreprocessorHighlightVisitor.kt:198 | the decimal digits of a natural number read back as that number |
| Text.ToIntOrNullOfIntToText | src/main/kotlin/dev/falsehonesty/PreprocessorHighlightVisitor.kt:198 | every 32-bit `Int` written in decimal parses back to itself, so every such literal is classified as a number |
| Condition.DotRunEnd | src/main/kotlin/dev/falsehonesty/PreprocessorHighlightVisitor.kt:252 | the reach of `.+` from a position is the first line terminator after it, or the end |
| Condition.DotRunClear | src/main/kotlin/dev/falsehonesty/PreprocessorHighlightVisitor.kt:252 | no line terminator lies between a position and the end of the `.` run from it |
| Condition.OperatorAt | src/main/kotlin/dev/falsehonesty/PreprocessorHighlightVisitor.kt:252 | the operator group tried at a position is the first alternative that fits with a character of the third group after it; `<=`/`>=` win over `<`/`>` where they fit |
| Condition.OperatorFits | src/main/kotlin/dev/falsehonesty/PreprocessorHighlightVisitor.kt:252 | an operator taken at a position is one of the four alternatives, written there, with a character of the third group after it |
| Condition.Backtrack | src/main/kotlin/dev/falsehonesty/PreprocessorHighlightVisitor.kt:252 | backtracking the greedy first group yields groups that start at the match start, an operator that fits, and a third group that runs to the end of the `.` run |
| Condition.BacktrackFails | src/main/kotlin/dev/falsehonesty/PreprocessorHighlightVisitor.kt:252 | backtracking fails exactly when no operator fits at any position it tries |
| Condition.BacktrackRightmost | src/main/kotlin/dev/falsehonesty/PreprocessorHighlightVisitor.kt:252 | no operator fits to the right of the one backtracking takes |
| Condition.BacktrackGroups | src/main/kotlin/dev/falsehonesty/PreprocessorHighlightVisitor.kt:252 | the groups found by backtracking are non-empty, free of line terminators, and the operator group holds the operator text |
| Condition.FindFrom | src/main/kotlin/dev/falsehonesty/PreprocessorHighlightVisitor.kt:86 | a match found from a start position lies at or after it and within the term |
| Condition.FindFromGroups | src/main/kotlin/dev/falsehonesty/PreprocessorHighlightVisitor.kt:86 | every match `find` returns has three well-formed groups |
| Condition.MatchCondition | src/main/kotlin/dev/falsehonesty/PreprocessorHighlightVisitor.kt:86 | a match lies within the term, with its groups in order |
| Condition.MatchGroups | src/main/kotlin/dev/falsehonesty/PreprocessorHighlightVisitor.kt:86-88 | a match always has its three groups (so the `groups.size < 4` test never fires), each side non-empty and the operator one of the four |
| Condition.FindFromFails | src/main/kotlin/dev/falsehonesty/PreprocessorHighlightVisitor.kt:86 | on a single-line term where no operator fits anywhere, `find` fails |
| Condition.GreedyOperator | src/main/kotlin/dev/falsehonesty/PreprocessorHighlightVisitor.kt:252 | on a single-line term the pattern matches exactly when some operator fits with non-empty sides; the match spans the whole term and takes the rightmost such operator |
| Condition.RightmostMatch | src/main/kotlin/dev/falsehonesty/PreprocessorHighlightVisitor.kt:252 | the rightmost fitting operator position determines the match completely |
| Condition.LessOrEqualPreferred | src/main/kotlin/dev/falsehonesty/PreprocessorHighlightVisitor.kt:252 | `x <= 5` selects `<=`, with sides `x ` and ` 5` |
| Condition.TrailingOperatorFallsBack | src/main/kotlin/dev/falsehonesty/PreprocessorHighlightVisitor.kt:252 | in `a<=` the operator `<=` leaves no third group, so `<` is taken with the third group `=` |
| Condition.RightmostOperatorWins | src/main/kotlin/dev/falsehonesty/PreprocessorHighlightVisitor.kt:252 | in `a<b<c` the second `<` is taken and the left side is `a<b` |
| Condition.LineTerminatorBoundsMatch | src/main/kotlin/dev/falsehonesty/PreprocessorHighlightVisitor.kt:252 | in `a<b` U+2028 `c>d` the match is `a`, `<`, `b`: the third group stops at the line separator, so the rightmost operator `>` is not taken |
| Highlight.DirectiveSpan | src/main/kotlin/dev/falsehonesty/PreprocessorHighlightVisitor.kt:213-219 | `toDirectiveHighlight`: the keyword span of a directive word after the comment prefix (its property is `KeywordCoversWord`) |
| Highlight.KeywordCoversWord | src/main/kotlin/dev/falsehonesty/PreprocessorHighlightVisitor.kt:213-219 | the keyword span of a `#` comment lies in the comment and covers exactly the sigil and the directive word |
| Highlight.FailSpan | src/main/kotlin/dev/falsehonesty/PreprocessorHighlightVisitor.kt:187-195 | `fail`: an error span over the whole comment element carrying the message |
| Highlight.FailCoversComment | src/main/kotlin/dev/falsehonesty/PreprocessorHighlightVisitor.kt:187-195 | the error `fail` adds lies in the comment and covers exactly the whole comment text |
| Highlight.IdentifierSpan | src/main/kotlin/dev/falsehonesty/PreprocessorHighlightVisitor.kt:109-113 | the identifier span of `#ifdef`: seven characters past the prefix, as long as the identifier |
| Highlight.IdentifierSpanCovers | src/main/kotlin/dev/falsehonesty/PreprocessorHighlightVisitor.kt:109-113 | the identifier span lies in the comment; it covers exactly the identifier when one whitespace character separates it from `ifdef`, and otherwise starts on whitespace |
| Highlight.OperandSpan | src/main/kotlin/dev/falsehonesty/PreprocessorHighlightVisitor.kt:197-211 | `toNumericOrVariableHighlight`: the span of a group of a term found at a position, classified by `toIntOrNull` of its trimmed text (its properties are `OperandClassified` and `OperandCovers`) |
| Highlight.OperandClassified | src/main/kotlin/dev/falsehonesty/PreprocessorHighlightVisitor.kt:197-211 | an operand span is a number exactly when its trimmed text is an optional sign and decimal digits whose value fits a 32-bit `Int`, and an identifier otherwise |
| Highlight.OperandCovers | src/main/kotlin/dev/falsehonesty/PreprocessorHighlightVisitor.kt:197-211 | for a term that occurs in the comment at its position, an operand span lies in the comment and covers exactly the untrimmed group |
| Highlight.OccurrencePart | src/main/kotlin/dev/falsehonesty/PreprocessorHighlightVisitor.kt:83 | a part of a term occurring at a position occurs at that position shifted by the part's offset |
| Highlight.InvalidConditionSpan | src/main/kotlin/dev/falsehonesty/PreprocessorHighlightVisitor.kt:221-227 | `toInvalidConditionErrorHighlight`: the error naming the trimmed term, placed at the term's position (its property is `InvalidConditionCovers`) |
| Highlight.InvalidConditionCovers | src/main/kotlin/dev/falsehonesty/PreprocessorHighlightVisitor.kt:221-227 | for a term that occurs in the comment, the error lies in the comment and covers the first `|trim(term)|` characters of the term; that is the trimmed term exactly when the term does not start with whitespace (or trims to nothing) |
| Highlight.MessageText | src/main/kotlin/dev/falsehonesty/PreprocessorHighlightVisitor.kt:74-149 | the text of each annotation message the visitor reports |
| Highlight.MessageTextInjective | src/main/kotlin/dev/falsehonesty/PreprocessorHighlightVisitor.kt:74-149 | different messages have different texts, so the message value determines the annotation text and back |
| Highlight.TermSpansShape | src/main/kotlin/dev/falsehonesty/PreprocessorHighlightVisitor.kt:86-94 | a matching term yields exactly its two operand spans, in order; any other term yields exactly one error span naming the trimmed term, as long as it, at the term's position |
| Highlight.TermSpans | src/main/kotlin/dev/falsehonesty/PreprocessorHighlightVisitor.kt:86-94 | the spans of one condition term at its position: two operand spans when the pattern matches, else one invalid-condition error (its properties are `TermSpansShape`, `TermSpansWithin`, `TermSpansNoKeyword`) |
| Highlight.TermSpansWithin | src/main/kotlin/dev/falsehonesty/PreprocessorHighlightVisitor.kt:86-94 | the spans of a term that occurs in the comment all lie in the comment |
| Highlight.ConditionLoopFirst | src/main/kotlin/dev/falsehonesty/PreprocessorHighlightVisitor.kt:82-84 | one iteration searches the first term from the current start, adds its spans and moves the start past the term |
| Highlight.ConditionLoop | src/main/kotlin/dev/falsehonesty/PreprocessorHighlightVisitor.kt:81-95 | the `for` loop over the terms as a function: each term is searched from the running start, its spans appended, the start moved past it (its properties are `ConditionLoopFirst`, `ConditionLoopWithin`, `ConditionLoopNoKeyword`) |
| Highlight.ConditionSpans | src/main/kotlin/dev/falsehonesty/PreprocessorHighlightVisitor.kt:81-95 | what the loop adds starting from an empty list |
| Highlight.ConditionLoopStep | src/main/kotlin/dev/falsehonesty/PreprocessorHighlightVisitor.kt:82-84 | one iteration adds spans that hold no keyword and, when the term occurs where it is found, lie in the comment |
| Highlight.ConditionLoopWithin | src/main/kotlin/dev/falsehonesty/PreprocessorHighlightVisitor.kt:81-95 | when every term is found where it occurs, every span the loop adds lies in the comment |
| Highlight.HighlightConditions | src/main/kotlin/dev/falsehonesty/PreprocessorHighlightVisitor.kt:81-95 | the `for` loop, starting at prefix length + 3, adds exactly the condition spans of the terms in order |
| Highlight.FoundNoLater | src/main/kotlin/dev/falsehonesty/PreprocessorHighlightVisitor.kt:83 | searching from at or before a known occurrence finds an occurrence no later than it |
| Highlight.FirstPiece | src/main/kotlin/dev/falsehonesty/PreprocessorHighlightVisitor.kt:79-83 | the first term of the condition occurs verbatim where the condition starts, and the other terms split what follows its connective |
| Highlight.TermsFound | src/main/kotlin/dev/falsehonesty/PreprocessorHighlightVisitor.kt:81-84 | when the search starts at or before the condition, every term is found (never -1), at or after the previous term's end, where it occurs verbatim |
| Highlight.IfTermsFound | src/main/kotlin/dev/falsehonesty/PreprocessorHighlightVisitor.kt:78-84 | for every `#if` with a condition, the searches starting at prefix length + 3 find each term at a non-decreasing position where it occurs verbatim in the comment |
| Highlight.ConditionFound | src/main/kotlin/dev/falsehonesty/PreprocessorHighlightVisitor.kt:78-84 | the terms of a condition that starts at some position are all found by searches that start at or before it |
| Highlight.HighlightCodeBlock | src/main/kotlin/dev/falsehonesty/PreprocessorHighlightVisitor.kt:159-185 | one injected span per lexer token, in token order, each token range shifted by the fragment's start |
| Highlight.Segments | src/main/kotlin/dev/falsehonesty/PreprocessorHighlightVisitor.kt:67 | the split of the body after the sigil has one or two pieces |
| Highlight.Word | src/main/kotlin/dev/falsehonesty/PreprocessorHighlightVisitor.kt:67-68 | the directive word of a `#` comment is the first piece of the split body |
| Highlight.DirectiveStates | src/main/kotlin/dev/falsehonesty/PreprocessorHighlightVisitor.kt:69-150 | the deque change of each directive: `if`/`ifdef` push IF, `else` replaces the head by ELSE, `endif` removes the head, an unknown word changes nothing (its properties are stated by the lemmas below) |
| Highlight.NextStates | src/main/kotlin/dev/falsehonesty/PreprocessorHighlightVisitor.kt:54-157 | the deque after one `visit`: changed only by a `#` comment, as its word says |
| Highlight.IfSpans | src/main/kotlin/dev/falsehonesty/PreprocessorHighlightVisitor.kt:70-98 | the spans of `#if`: the missing-condition error, or the condition spans then the keyword |
| Highlight.IfDefSpans | src/main/kotlin/dev/falsehonesty/PreprocessorHighlightVisitor.kt:99-116 | the spans of `#ifdef`: the missing-identifier error, or the keyword then the identifier |
| Highlight.CloseSpans | src/main/kotlin/dev/falsehonesty/PreprocessorHighlightVisitor.kt:117-147 | the span of `#else`/`#endif` given the old head: "must have an opening if", the arguments error, or the keyword |
| Highlight.DirectiveSpans | src/main/kotlin/dev/falsehonesty/PreprocessorHighlightVisitor.kt:66-151 | the spans of a `#` comment, dispatched on its word |
| Highlight.AddedSpans | src/main/kotlin/dev/falsehonesty/PreprocessorHighlightVisitor.kt:54-157 | the spans one `visit` adds: those of a `#` comment, the marker and lexer tokens of a `$$` comment, or nothing |
| Highlight.VisitKeepsOpenBlocks | src/main/kotlin/dev/falsehonesty/PreprocessorHighlightVisitor.kt:69-151 | only `IF` and `ELSE` are ever pushed, so a deque holding only those keeps holding only those |
| Highlight.IgnoredComment | src/main/kotlin/dev/falsehonesty/PreprocessorHighlightVisitor.kt:55-66 | a comment without the prefix, with an empty body, or whose body starts with neither `#` nor `$$` adds nothing and leaves the deque unchanged |
| Highlight.IfOpensBlock | src/main/kotlin/dev/falsehonesty/PreprocessorHighlightVisitor.kt:70-116 | `if` and `ifdef` always push `IF`; without a condition or identifier exactly one error over the comment is added and no keyword span; otherwise the condition spans then the keyword, or the keyword then the identifier |
| Highlight.ElseReplacesHead | src/main/kotlin/dev/falsehonesty/PreprocessorHighlightVisitor.kt:117-132 | `else` replaces the head by `ELSE` (depth becomes max(depth, 1)); it adds one span, which is "must have an opening if" exactly when the head was not `IF`, else the arguments error or the keyword |
| Highlight.EndIfRemovesHead | src/main/kotlin/dev/falsehonesty/PreprocessorHighlightVisitor.kt:133-147 | `endif` removes at most the head and never underflows; it adds one span, which is "must have an opening if" exactly when the head was neither `IF` nor `ELSE` (with only open blocks on the deque, exactly when it was empty), else the arguments error or the keyword |
| Highlight.UnknownDirective | src/main/kotlin/dev/falsehonesty/PreprocessorHighlightVisitor.kt:148-150 | any other word adds one error naming it and leaves the deque unchanged |
| Highlight.CodeBlockSpans | src/main/kotlin/dev/falsehonesty/PreprocessorHighlightVisitor.kt:152-156 | a `$$` comment adds the three-character marker span and then one injected span per lexer token, shifted past the marker; the deque is unchanged |
| Highlight.CodeMarkerOverrunsComment | src/main/kotlin/dev/falsehonesty/PreprocessorHighlightVisitor.kt:153 | for `//$$` the marker span ends one past the end of the comment |
| Highlight.KeywordsAppend | src/main/kotlin/dev/falsehonesty/PreprocessorHighlightVisitor.kt:97 | the number of keyword spans in two span lists added one after the other is the sum of their counts |
| Highlight.TermSpansNoKeyword | src/main/kotlin/dev/falsehonesty/PreprocessorHighlightVisitor.kt:86-94 | the spans of a term are never keyword spans |
| Highlight.ConditionLoopNoKeyword | src/main/kotlin/dev/falsehonesty/PreprocessorHighlightVisitor.kt:81-95 | the condition loop adds no keyword span |
| Highlight.IfHighlightsOnce | src/main/kotlin/dev/falsehonesty/PreprocessorHighlightVisitor.kt:70-98 | an `#if` with a condition highlights its keyword exactly once |
| Highlight.DirectiveRejectedOrHighlighted | src/main/kotlin/dev/falsehonesty/PreprocessorHighlightVisitor.kt:66-151 | every `#` comment either gets one error over the whole comment and nothing else, or gets its keyword span, inside the comment, as its only keyword span |
| Highlight.IfSpansWithin | src/main/kotlin/dev/falsehonesty/PreprocessorHighlightVisitor.kt:70-98 | every span `#if` adds lies in the comment |
| Highlight.IfDefSpansWithin | src/main/kotlin/dev/falsehonesty/PreprocessorHighlightVisitor.kt:99-116 | every span `#ifdef` adds lies in the comment |
| Highlight.CloseSpansWithin | src/main/kotlin/dev/falsehonesty/PreprocessorHighlightVisitor.kt:117-147 | the span `#else` or `#endif` adds lies in the comment |
| Highlight.DirectiveSpansWithin | src/main/kotlin/dev/falsehonesty/PreprocessorHighlightVisitor.kt:66-151 | every span a `#` comment adds lies in the comment: errors cover it whole, keyword, operand, invalid-condition and identifier spans lie inside it |
| Highlight.ScanKeepsOpenBlocks | src/main/kotlin/dev/falsehonesty/PreprocessorHighlightVisitor.kt:54-157 | over a whole pass the deque holds only `IF` and `ELSE` |
| Highlight.ScanStates | src/main/kotlin/dev/falsehonesty/PreprocessorHighlightVisitor.kt:54-157 | the deque after one visitor has seen the comments of a file in order |
| Highlight.ScanSpans | src/main/kotlin/dev/falsehonesty/PreprocessorHighlightVisitor.kt:54-157 | everything one visitor adds over the comments of a file, in visit order |
| Highlight.ScanCons | src/main/kotlin/dev/falsehonesty/PreprocessorHighlightVisitor.kt:54-157 | a pass visits the first comment, then the rest from the deque that visit left |
| Highlight.Visitor.constructor | src/main/kotlin/dev/falsehonesty/PreprocessorHighlightVisitor.kt:52 | a fresh visitor has an empty deque and has added nothing |
| Highlight.Visitor.Push | src/main/kotlin/dev/falsehonesty/PreprocessorHighlightVisitor.kt:71 | `push` adds the state at the head |
| Highlight.Visitor.PollFirst | src/main/kotlin/dev/falsehonesty/PreprocessorHighlightVisitor.kt:118 | `pollFirst` returns the head (or nothing) and removes it |
| Highlight.Visitor.VisitIf | src/main/kotlin/dev/falsehonesty/PreprocessorHighlightVisitor.kt:70-98 | the `if` branch pushes `IF` and adds the missing-condition error, or the condition spans then the keyword |
| Highlight.Visitor.VisitIfDef | src/main/kotlin/dev/falsehonesty/PreprocessorHighlightVisitor.kt:99-116 | the `ifdef` branch pushes `IF` and adds the missing-identifier error, or the keyword then the identifier |
| Highlight.Visitor.VisitElse | src/main/kotlin/dev/falsehonesty/PreprocessorHighlightVisitor.kt:117-132 | the `else` branch polls, pushes `ELSE` and adds its one span |
| Highlight.Visitor.VisitEndIf | src/main/kotlin/dev/falsehonesty/PreprocessorHighlightVisitor.kt:133-147 | the `endif` branch polls and adds its one span |
| Highlight.Visitor.VisitDirective | src/main/kotlin/dev/falsehonesty/PreprocessorHighlightVisitor.kt:66-151 | a `#` comment changes the deque and the holder as its directive word says |
| Highlight.Visitor.Visit | src/main/kotlin/dev/falsehonesty/PreprocessorHighlightVisitor.kt:54-157 | `visit` changes the deque and appends to the holder exactly as `NextStates` and `AddedSpans` say, and keeps the deque holding only open blocks |
| Nesting.TermSpansErrors | src/main/kotlin/dev/falsehonesty/PreprocessorHighlightVisitor.kt:86-94 | a term's spans hold no "must have an opening if" error, and one error exactly when the term is not a comparison |
| Nesting.ConditionLoopCountStep | src/main/kotlin/dev/falsehonesty/PreprocessorHighlightVisitor.kt:82-84 | one iteration adds no "must have an opening if" error, and one error exactly when its term is not a comparison |
| Nesting.ConditionLoopUnmatcheds | src/main/kotlin/dev/falsehonesty/PreprocessorHighlightVisitor.kt:81-95 | the condition loop never adds a "must have an opening if" error |
| Nesting.ConditionLoopErrors | src/main/kotlin/dev/falsehonesty/PreprocessorHighlightVisitor.kt:81-95 | the condition loop adds one error per term that is not a comparison, and no other |
| Nesting.IfConditionErrors | src/main/kotlin/dev/falsehonesty/PreprocessorHighlightVisitor.kt:70-98 | `#if` with a condition adds no "must have an opening if" error, and no error at all when every term is a comparison |
| Nesting.PlainLeads | src/main/kotlin/dev/falsehonesty/PreprocessorHighlightVisitor.kt:54-66 | a comment that is not a `#` directive leaves the deque alone and adds no error |
| Nesting.OpenLeads | src/main/kotlin/dev/falsehonesty/PreprocessorHighlightVisitor.kt:70-116 | `#if`/`#ifdef` push IF and add no "must have an opening if" error; with their argument and comparison terms they add no error |
| Nesting.ElseLeads | src/main/kotlin/dev/falsehonesty/PreprocessorHighlightVisitor.kt:117-132 | `#else` after IF replaces it by ELSE without "must have an opening if"; without arguments it adds no error |
| Nesting.EndIfLeads | src/main/kotlin/dev/falsehonesty/PreprocessorHighlightVisitor.kt:133-147 | `#endif` after IF or ELSE removes it without "must have an opening if"; without arguments it adds no error |
| Nesting.ScanStatesAppend | src/main/kotlin/dev/falsehonesty/PreprocessorHighlightVisitor.kt:54-157 | the deque after a pass over two runs of comments is the deque after the second run started from where the first left it |
| Nesting.ScanSpansAppend | src/main/kotlin/dev/falsehonesty/PreprocessorHighlightVisitor.kt:54-157 | the spans of a pass over two runs of comments are those of the first run, then those of the second run from the deque the first left |
| Nesting.LeadsAppend | src/main/kotlin/dev/falsehonesty/PreprocessorHighlightVisitor.kt:54-157 | returning the deque with no unmatched (or no) error composes over consecutive runs of comments |
| Nesting.BlockLeads | src/main/kotlin/dev/falsehonesty/PreprocessorHighlightVisitor.kt:54-157 | one balanced block, or one plain comment, returns the deque to where it was with no "must have an opening if" error, and no error when it is clean |
| Nesting.NestedLeads | src/main/kotlin/dev/falsehonesty/PreprocessorHighlightVisitor.kt:54-157 | a sequence of balanced blocks does the same |
| Nesting.BalancedBlocks | src/main/kotlin/dev/falsehonesty/PreprocessorHighlightVisitor.kt:54-157 | from any deque, a pass over balanced blocks ends with that same deque and no span is "must have an opening if"; when the blocks are also clean no span is an error |
| Examples.LessThanNumber | src/main/kotlin/dev/falsehonesty/PreprocessorHighlightVisitor.kt:252 | `a < 5` matches with sides `a ` and ` 5` |
| Examples.IfSegments | src/main/kotlin/dev/falsehonesty/PreprocessorHighlightVisitor.kt:67 | `//#if a < 5` splits into `if` and `a < 5` |
| Examples.IfTermPosition | src/main/kotlin/dev/falsehonesty/PreprocessorHighlightVisitor.kt:83 | the single term `a < 5` is found at 6, right after the separator |
| Examples.Operands | src/main/kotlin/dev/falsehonesty/PreprocessorHighlightVisitor.kt:198 | the trimmed `a ` is not an integer and the trimmed ` 5` is 5 |
| Examples.TermOperands | src/main/kotlin/dev/falsehonesty/PreprocessorHighlightVisitor.kt:93-94 | `a < 5` at 6 yields an identifier over `a ` and a number over ` 5` |
| Examples.IfConditionSpans | src/main/kotlin/dev/falsehonesty/PreprocessorHighlightVisitor.kt:81-95 | the condition loop over `a < 5` yields those two spans |
| Examples.IfWithCondition | src/main/kotlin/dev/falsehonesty/PreprocessorHighlightVisitor.kt:70-98 | `//#if a < 5` pushes `IF` and adds the identifier, the number, then the keyword |
| Examples.ElseAfterIf | src/main/kotlin/dev/falsehonesty/PreprocessorHighlightVisitor.kt:117-131 | `//#else` after `IF` leaves `ELSE` and highlights the keyword |
| Examples.EndIfAfterElse | src/main/kotlin/dev/falsehonesty/PreprocessorHighlightVisitor.kt:133-146 | `//#endif` after `ELSE` empties the deque and highlights the keyword |
| Examples.BalancedBlockCloses | src/main/kotlin/dev/falsehonesty/PreprocessorHighlightVisitor.kt:54-157 | after an `if`/`else`/`endif` block the deque is empty again |
| Examples.BalancedBlockSpans | src/main/kotlin/dev/falsehonesty/PreprocessorHighlightVisitor.kt:54-157 | that block adds no error, only the two operands and the three keywords |
| Examples.StrayEndIf | src/main/kotlin/dev/falsehonesty/PreprocessorHighlightVisitor.kt:133-139 | `//#endif` with nothing open is one "must have an opening if" error over the comment and the deque stays empty |
| Examples.SpaceAfterSigil | src/main/kotlin/dev/falsehonesty/PreprocessorHighlightVisitor.kt:67 | `//# if x` is the unknown directive `""` and leaves the deque unchanged |

## Left out

- Highlight objects: `HighlightInfo`, `TextAttributes`, colours and severities are not modelled. A span is a range with a kind (keyword, identifier, number, injected code, or error with its message).
- `analyze` is not modelled. The commenter and syntax-highlighter lookups it does become the `prefix` and `lexer` parameters of `Visit`.
- The `element !is PsiCommentImpl` test: the model only ever receives comments.
- `Highlight.HighlightCodeBlock`: the host lexer is a foreign call. The model takes the token ranges it produces as a list and shifts each one; token types and their colours are left out.
- `Text.Trim`, `Text.TrimSlice`: remove only the ASCII characters Kotlin treats as whitespace (`\t \n \x0B \f \r`, `\x1C`–`\x1F`, space); the non-ASCII space characters `Char.isWhitespace` also accepts are not modelled.
- `Text.ToIntOrNull`, `Text.ToIntOrNullValue`: accept only the ASCII digits `0`–`9`; the other Unicode decimal digits `Character.digit` accepts are not modelled.
- `Text.ToUpper`: upper-cases ASCII letters only, not the locale-dependent mapping of other letters.
- `Highlight.DirectiveSpan`: offsets are unbounded integers, so 32-bit overflow of document offsets is not modelled.
- Text positions: a Dafny `string` counts Unicode scalar values, while Kotlin `String` indices and lengths count UTF-16 code units. Every offset and length in the model (`IndexOf`, the term positions, every span of `Highlight`) agrees with the code only on text without supplementary-plane characters; after an emoji in a comment, the code's spans lie one unit further right per such character (and `//#endif 🎉` is one unit longer) than the model's.
- `ImportOptimizer.kt` and `PreprocessorCompletion.kt` are not part of this model: one is host import-optimizer wiring, the other a static keyword list for completion.
