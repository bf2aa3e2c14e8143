/** The directive scanner of `PreprocessorHighlightVisitor`: for every line
    comment it recognises `#if`, `#ifdef`, `#else`, `#endif` and the `$$`
    code marker, keeps the stack of open blocks, and adds classified spans
    and errors to the highlight holder.

    The pure part (span ranges, condition terms, the effect of one visit)
    is given by functions; the visitor itself is a class whose fields are
    the deque of open blocks and the holder's contents, and whose `Visit`
    method updates them step by step as the Kotlin code does. */
module Highlight {
  import opened Wrappers
  import opened Text
  import opened Condition
  import P = Preprocessor

  /** What a span shows: the directive keyword, an identifier or a number
      in a condition, a token of `$$` code coloured by the host lexer, or
      an error with its message. */
  datatype Kind = Directive | Identifier | Number | Injected | Error(message: Message)

  /** A highlight over the absolute document range `[start, end)`. */
  datatype Span = Span(start: int, end: int, kind: Kind)

  /** A token of the host lexer, as offsets within the code fragment. */
  datatype Token = Token(start: int, end: int)

  // ---------------------------------------------------------------------
  // Messages
  // ---------------------------------------------------------------------

  /** The message of an error annotation, by what it reports; the holder
      receives the text `MessageText` gives it. */
  datatype Message =
    | MissingCondition
    | MissingIdentifier
    | NoOpeningIf(keyword: string)
    | NoArguments(keyword: string)
    | Unknown(word: string)
    | InvalidCondition(term: string)

  const DirectiveQuote: string := "Preprocessor directive \""
  const MissingConditionTail: string := "\" is missing a condition."
  const MissingIdentifierTail: string := "\" is missing an identifier."
  const NoOpeningIfTail: string := "\" must have an opening if."
  const NoArgumentsTail: string := "\" does not require any arguments."
  const UnknownQuote: string := "Unknown preprocessor directive \""
  const InvalidQuote: string := "Invalid condition \""

  /** The text of each message, as the visitor writes it. */
  function MessageText(m: Message): (r: string) {
    match m
    case MissingCondition => DirectiveQuote + "if" + MissingConditionTail
    case MissingIdentifier => DirectiveQuote + "ifdef" + MissingIdentifierTail
    case NoOpeningIf(keyword) => DirectiveQuote + keyword + NoOpeningIfTail
    case NoArguments(keyword) => DirectiveQuote + keyword + NoArgumentsTail
    case Unknown(word) => UnknownQuote + word + "\""
    case InvalidCondition(term) => InvalidQuote + term + "\""
  }

  /** A text framed by `pre` and `post` starts with `pre`'s first
      character, ends with `post`'s last two, and holds `x` right after
      `pre`. */
  lemma Framed(pre: string, x: string, post: string)
    requires |pre| >= 1 && |post| >= 2
    ensures var r := pre + x + post;
      && r[0] == pre[0] && r[|r| - 2] == post[|post| - 2]
      && r[|pre|..|pre| + |x|] == x
  {
    var r := pre + x + post;
    assert r[|r| - 2] == post[|post| - 2];
  }

  /** The first character of a text tells the three families of message
      apart, and the letter before the final full stop the four messages
      about a directive; these are the cases `MessageTextInjective` needs. */
  function Signature(m: Message): (char, char) {
    match m
    case MissingCondition => ('P', 'n')
    case MissingIdentifier => ('P', 'r')
    case NoOpeningIf(_) => ('P', 'f')
    case NoArguments(_) => ('P', 's')
    case Unknown(_) => ('U', '"')
    case InvalidCondition(_) => ('I', '"')
  }

  lemma MessageTextSignature(m: Message)
    ensures var r := MessageText(m);
      |r| >= 2 && r[0] == Signature(m).0 && (m.Unknown? || m.InvalidCondition? || r[|r| - 2] == Signature(m).1)
  {
    match m
    case NoOpeningIf(k) => Framed(DirectiveQuote, k, NoOpeningIfTail);
    case NoArguments(k) => Framed(DirectiveQuote, k, NoArgumentsTail);
    case Unknown(w) => assert MessageText(m)[0] == UnknownQuote[0];
    case InvalidCondition(t) => assert MessageText(m)[0] == InvalidQuote[0];
    case MissingCondition => Framed(DirectiveQuote, "if", MissingConditionTail);
    case MissingIdentifier => Framed(DirectiveQuote, "ifdef", MissingIdentifierTail);
  }

  /** Messages with the same text are the same message: modelling the
      annotation's message as a `Message` loses nothing of its text. */
  lemma MessageTextInjective(a: Message, b: Message)
    requires MessageText(a) == MessageText(b)
    ensures a == b
  {
    MessageTextSignature(a);
    MessageTextSignature(b);
    match a
    case NoOpeningIf(k) =>
      Framed(DirectiveQuote, k, NoOpeningIfTail);
      Framed(DirectiveQuote, b.keyword, NoOpeningIfTail);
    case NoArguments(k) =>
      Framed(DirectiveQuote, k, NoArgumentsTail);
      Framed(DirectiveQuote, b.keyword, NoArgumentsTail);
    case Unknown(w) =>
      assert b.Unknown?;
      assert MessageText(a) == UnknownQuote + w + "\"";
      assert MessageText(b) == UnknownQuote + b.word + "\"";
      assert MessageText(a)[|UnknownQuote|..|UnknownQuote| + |w|] == w;
      assert MessageText(b)[|UnknownQuote|..|UnknownQuote| + |b.word|] == b.word;
    case InvalidCondition(t) =>
      assert b.InvalidCondition?;
      assert MessageText(a)[|InvalidQuote|..|InvalidQuote| + |t|] == t;
      assert MessageText(b)[|InvalidQuote|..|InvalidQuote| + |b.term|] == b.term;
    case _ =>
  }

  // ---------------------------------------------------------------------
  // Span ranges
  // ---------------------------------------------------------------------

  /** `fail`: an error over the whole comment element. */
  function FailSpan(startOffset: int, text: string, message: Message): (r: Span) {
    Span(startOffset, startOffset + |text|, Error(message))
  }

  /** `toDirectiveHighlight`: the keyword span of `word` after the comment
      prefix (what it covers is stated by `KeywordCoversWord`). */
  function DirectiveSpan(startOffset: int, prefixLength: nat, word: string): (r: Span)
  {
    Span(startOffset + prefixLength, startOffset + prefixLength + 1 + |word|, Directive)
  }

  /** The identifier after `#ifdef`: placed seven characters after the
      prefix (the sigil, the keyword and one separator), as long as the
      whole remainder of the comment. */
  function IdentifierSpan(startOffset: int, prefixLength: nat, identifier: string): (r: Span) {
    Span(startOffset + prefixLength + 7, startOffset + prefixLength + 7 + |identifier|, Identifier)
  }

  /** `toNumericOrVariableHighlight`: the group `term[groupStart..groupEnd]`
      of a term found at `position`, shown as a number when its trimmed
      text is a 32-bit integer literal. */
  function OperandSpan(term: string, startOffset: int, position: int, groupStart: nat, groupEnd: nat): (r: Span)
    requires groupStart <= groupEnd <= |term|
  {
    var kind := if ToIntOrNull(Trim(term[groupStart..groupEnd])).Some? then Number else Identifier;
    Span(startOffset + position + groupStart, startOffset + position + groupEnd, kind)
  }

  /** An operand is a number exactly when its trimmed text is a decimal
      literal (an optional sign and at least one digit) whose value fits a
      32-bit `Int`, and an identifier otherwise. */
  lemma OperandClassified(term: string, startOffset: int, position: int, groupStart: nat, groupEnd: nat)
    requires groupStart <= groupEnd <= |term|
    ensures var r := OperandSpan(term, startOffset, position, groupStart, groupEnd);
      var t := Trim(term[groupStart..groupEnd]);
      && (r.kind == Number <==> IntLiteral(t) && IntMin <= LiteralValue(t) <= IntMax)
      && (r.kind == Number || r.kind == Identifier)
  {
    ToIntOrNullValue(Trim(term[groupStart..groupEnd]));
  }

  /** The span lies in the comment `[startOffset, startOffset + length]`. */
  predicate Lies(r: Span, startOffset: int, length: int) {
    startOffset <= r.start <= r.end <= startOffset + length
  }

  /** All the spans lie in the comment. */
  predicate Within(spans: seq<Span>, startOffset: int, length: int) {
    forall i :: 0 <= i < |spans| ==> Lies(spans[i], startOffset, length)
  }

  lemma WithinAppend(a: seq<Span>, b: seq<Span>, startOffset: int, length: int)
    requires Within(a, startOffset, length) && Within(b, startOffset, length)
    ensures Within(a + b, startOffset, length)
  {
    forall i | 0 <= i < |a + b| ensures Lies((a + b)[i], startOffset, length) {
      if i >= |a| {
        assert (a + b)[i] == b[i - |a|];
      }
    }
  }

  /** The text of the comment `text` (at document offset `startOffset`)
      that a span lying in it covers. */
  function Covered(text: string, startOffset: int, r: Span): string
    requires Lies(r, startOffset, |text|)
  {
    text[r.start - startOffset..r.end - startOffset]
  }

  /** The error `fail` reports covers exactly the whole comment. */
  lemma FailCoversComment(startOffset: int, text: string, message: Message)
    ensures var r := FailSpan(startOffset, text, message);
      Lies(r, startOffset, |text|) && Covered(text, startOffset, r) == text && r.kind == Error(message)
  {
  }

  /** For a term that occurs in the comment at `position`, an operand span
      lies in the comment and covers exactly the group
      `term[groupStart..groupEnd]`, untrimmed. */
  lemma OperandCovers(text: string, term: string, startOffset: int, position: int, groupStart: nat, groupEnd: nat)
    requires OccursAt(text, term, position) && groupStart <= groupEnd <= |term|
    ensures var r := OperandSpan(term, startOffset, position, groupStart, groupEnd);
      Lies(r, startOffset, |text|) && Covered(text, startOffset, r) == term[groupStart..groupEnd]
  {
    OccurrencePart(text, term, position, groupStart, groupEnd);
  }

  /** A part of a term that occurs at `position` occurs shifted by it. */
  lemma OccurrencePart(text: string, term: string, position: int, lo: nat, hi: nat)
    requires OccursAt(text, term, position) && lo <= hi <= |term|
    ensures 0 <= position && position + hi <= |text| && text[position + lo..position + hi] == term[lo..hi]
  {
    OccursAtSlice(text, term, position);
    forall k | 0 <= k < hi - lo ensures text[position + lo..position + hi][k] == term[lo..hi][k] {
      assert term[lo + k] == text[position..position + |term|][lo + k];
    }
  }

  /** For a term that occurs in the comment at `position`, the error span
      lies in the comment and covers the first `|Trim(term)|` characters
      of the term. That is the trimmed term exactly when the term does not
      start with whitespace (or trims to nothing); otherwise the span is
      shifted left of the text it names. */
  lemma InvalidConditionCovers(text: string, term: string, startOffset: int, position: int)
    requires OccursAt(text, term, position)
    ensures var r := InvalidConditionSpan(startOffset, position, Trim(term));
      && Lies(r, startOffset, |text|)
      && Covered(text, startOffset, r) == term[..|Trim(term)|]
      && (Covered(text, startOffset, r) == Trim(term) <==> Trim(term) == [] || !IsTrimSpace(term[0]))
  {
    var t := Trim(term);
    OccurrencePart(text, term, position, 0, |t|);
    assert term[..|t|] == term[0..|t|];
    if t != [] && !IsTrimSpace(term[0]) {
      assert TrimmedStart(term, 0) == 0;
    }
    if t != [] && IsTrimSpace(term[0]) {
      TrimSlice(term);
      assert term[..|t|][0] == term[0];
    }
  }

  /** `toInvalidConditionErrorHighlight`: an error naming the trimmed term,
      placed at the term's position (what it covers is stated by
      `InvalidConditionCovers`). */
  function InvalidConditionSpan(startOffset: int, position: int, trimmed: string): (r: Span)
  {
    Span(startOffset + position, startOffset + position + |trimmed|, Error(InvalidCondition(trimmed)))
  }

  // ---------------------------------------------------------------------
  // Conditions of `#if`
  // ---------------------------------------------------------------------

  /** The spans of one condition term found at `position`: the two operand
      spans when the relational pattern matches, otherwise one error. */
  function TermSpans(term: string, startOffset: int, position: int): (r: seq<Span>) {
    match MatchCondition(term)
    case None => [InvalidConditionSpan(startOffset, position, Trim(term))]
    case Some(m) =>
      [OperandSpan(term, startOffset, position, m.lhsStart, m.lhsEnd),
       OperandSpan(term, startOffset, position, m.rhsStart, m.rhsEnd)]
  }

  /** A term the relational pattern matches yields exactly two operand
      spans, one per side; any other term yields exactly one error span
      that starts at the term's position, is as long as the trimmed term and
      names it. */
  lemma TermSpansShape(term: string, startOffset: int, position: int)
    ensures var r := TermSpans(term, startOffset, position);
      && (MatchCondition(term).Some? <==> |r| == 2)
      && (MatchCondition(term).None? <==> |r| == 1)
      && (|r| == 2 ==>
            var m := MatchCondition(term).value;
            && r[0] == OperandSpan(term, startOffset, position, m.lhsStart, m.lhsEnd)
            && r[1] == OperandSpan(term, startOffset, position, m.rhsStart, m.rhsEnd)
            && (r[0].kind == Number || r[0].kind == Identifier)
            && (r[1].kind == Number || r[1].kind == Identifier))
      && (|r| == 1 ==>
            && r[0].start == startOffset + position
            && r[0].end - r[0].start == |Trim(term)|
            && r[0].kind == Error(InvalidCondition(Trim(term))))
  {
  }

  /** The condition loop of `#if` run over `terms` with `nextStartPos` at
      `from`, after the spans `added` have been collected: each term is
      looked up with `indexOf` from the end of the previous term's
      occurrence, and its spans are appended. */
  function ConditionLoop(text: string, startOffset: int, terms: seq<string>, from: int, added: seq<Span>): (r: seq<Span>)
    decreases |terms|
  {
    if terms == [] then added
    else
      var position := IndexOf(text, terms[0], from);
      ConditionLoop(text, startOffset, terms[1..], position + |terms[0]|,
                    added + TermSpans(terms[0], startOffset, position))
  }

  /** One iteration of the condition loop, for the first term. */
  lemma {:induction false} ConditionLoopFirst(text: string, startOffset: int, terms: seq<string>, from: int, added: seq<Span>)
    returns (head: seq<Span>, next: int)
    requires terms != []
    ensures head == TermSpans(terms[0], startOffset, IndexOf(text, terms[0], from))
    ensures next == IndexOf(text, terms[0], from) + |terms[0]|
    ensures ConditionLoop(text, startOffset, terms, from, added)
         == ConditionLoop(text, startOffset, terms[1..], next, added + head)
  {
    var position := IndexOf(text, terms[0], from);
    head := TermSpans(terms[0], startOffset, position);
    next := position + |terms[0]|;
    assert terms == [terms[0]] + terms[1..];
  }

  /** Everything the condition loop adds for terms located from `from` on. */
  function ConditionSpans(text: string, startOffset: int, terms: seq<string>, from: int): (r: seq<Span>) {
    ConditionLoop(text, startOffset, terms, from, [])
  }

  /** The condition loop of `visit`: each term is located with `indexOf`
      from `nextStartPos`, which then moves to the end of that term. */
  method HighlightConditions(text: string, startOffset: int, prefixLength: nat, conditions: seq<string>)
    returns (added: seq<Span>)
    ensures added == ConditionSpans(text, startOffset, conditions, prefixLength + 3)
  {
    added := [];
    var nextStartPos: int := prefixLength + 3;
    var i := 0;
    assert conditions[i..] == conditions;
    while i < |conditions|
      invariant 0 <= i <= |conditions|
      invariant ConditionLoop(text, startOffset, conditions[i..], nextStartPos, added)
             == ConditionSpans(text, startOffset, conditions, prefixLength + 3)
      decreases |conditions| - i
    {
      assert conditions[i..][0] == conditions[i] && conditions[i..][1..] == conditions[i + 1..];
      var condition := conditions[i];
      var position := IndexOf(text, condition, nextStartPos);
      nextStartPos := position + |condition|;
      added := added + TermSpans(condition, startOffset, position);
      i := i + 1;
    }
  }

  /** `indexOf` from at or before a known occurrence finds one no later
      than it. */
  lemma FoundNoLater(text: string, t: string, from: int, q: int)
    requires from <= q && OccursAt(text, t, q)
    ensures var r := IndexOf(text, t, from); r != -1 && from <= r <= q && OccursAt(text, t, r)
  {
    IndexOfFirst(text, t, from);
  }

  /** The first piece of a connective split of `text[q..]` occurs at `q`,
      and the remaining pieces split the text after its connective. */
  lemma FirstPiece(text: string, terms: seq<string>, q: int)
    requires 0 <= q <= |text| && JoinedByConnectives(text[q..], terms)
    ensures OccursAt(text, terms[0], q)
    ensures |terms| > 1 ==> (q + |terms[0]| + 2 <= |text|
      && JoinedByConnectives(text[q + |terms[0]| + 2..], terms[1..]))
  {
    var t := terms[0];
    var tail := text[q..];
    assert tail[..|t|] == t by {
      if |terms| == 1 {
        assert tail == t;
      }
    }
    assert text[q..q + |t|] == t by {
      assert text[q..q + |t|] == tail[..|t|];
    }
    OccursAtSlice(text, t, q);
    if |terms| > 1 {
      assert text[q + |t| + 2..] == tail[|t| + 2..];
    }
  }

  /** Every term is found by the search of the condition loop, at a real
      occurrence in the comment at or after where the search started, and
      the next search starts where it ends. */
  ghost predicate AllFound(text: string, terms: seq<string>, from: int)
    decreases |terms|
  {
    || terms == []
    || (var position := IndexOf(text, terms[0], from);
        && from <= position && OccursAt(text, terms[0], position)
        && AllFound(text, terms[1..], position + |terms[0]|))
  }

  /** When the terms are the pieces of the comment's tail `text[q..]`
      between connectives and the search starts at or before `q`, every
      term is found: `indexOf` never returns -1 and never skips past a
      term's own occurrence. */
  lemma {:induction false} TermsFound(text: string, terms: seq<string>, from: int, q: int)
    requires 0 <= q <= |text| && from <= q
    requires JoinedByConnectives(text[q..], terms)
    ensures AllFound(text, terms, from)
    decreases |terms|
  {
    var t := terms[0];
    FirstPiece(text, terms, q);
    FoundNoLater(text, t, from, q);
    if |terms| > 1 {
      TermsFound(text, terms[1..], IndexOf(text, t, from) + |t|, q + |t| + 2);
    }
  }

  // ---------------------------------------------------------------------
  // `$$` code blocks
  // ---------------------------------------------------------------------

  /** Each lexer token shifted from fragment offsets to document offsets. */
  function CodeSpans(base: int, tokens: seq<Token>): (r: seq<Span>) {
    seq(|tokens|, i requires 0 <= i < |tokens| => Span(base + tokens[i].start, base + tokens[i].end, Injected))
  }

  /** `highlightCodeBlock`, over the tokens the host lexer produced for the
      fragment: one span per token, in lexer order, each shifted by `base`. */
  method HighlightCodeBlock(base: int, tokens: seq<Token>) returns (added: seq<Span>)
    ensures |added| == |tokens|
    ensures forall i :: 0 <= i < |tokens| ==>
      added[i].kind == Injected && added[i].start - base == tokens[i].start && added[i].end - base == tokens[i].end
  {
    added := [];
    var i := 0;
    while i < |tokens|
      invariant 0 <= i <= |tokens|
      invariant added == CodeSpans(base, tokens[..i])
    {
      added := added + [Span(base + tokens[i].start, base + tokens[i].end, Injected)];
      i := i + 1;
    }
    assert tokens[..i] == tokens;
  }

  // ---------------------------------------------------------------------
  // The effect of one visit
  // ---------------------------------------------------------------------

  /** `pollFirst`: the head of the deque, if there is one. */
  function Head(states: seq<P.State>): Option<P.State> {
    if states == [] then Option.None else Some(states[0])
  }

  /** The deque after `pollFirst`. */
  function Tail(states: seq<P.State>): seq<P.State> {
    if states == [] then [] else states[1..]
  }

  /** The comment body after the `#` sigil split at its first run of
      whitespace: the directive word, then (if there was whitespace) the
      rest. */
  function Segments(text: string, prefixLength: nat): (r: seq<string>)
    requires prefixLength < |text|
    ensures 1 <= |r| <= 2
  {
    SplitAtWhitespace(text[prefixLength + 1..])
  }

  /** The comment starts with the line-comment prefix and has something
      after it. */
  predicate HasBody(text: string, prefix: Option<string>) {
    prefix.Some? && StartsWith(text, prefix.value) && |prefix.value| < |text|
  }

  /** A directive comment: a body that starts with the `#` sigil. */
  predicate IsDirective(text: string, prefix: Option<string>) {
    HasBody(text, prefix) && text[|prefix.value|] == '#'
  }

  /** A code comment: a body that starts with `$$` (and so not with `#`). */
  predicate IsCode(text: string, prefix: Option<string>) {
    HasBody(text, prefix) && StartsWith(text[|prefix.value|..], "$$")
  }

  // ---------------------------------------------------------------------
  // The deque of open blocks
  // ---------------------------------------------------------------------

  /** How a directive changes the deque: `if` and `ifdef` push IF, `else`
      replaces the head (if any) by ELSE, `endif` removes the head (if any),
      and an unknown word changes nothing. The change happens before, and
      whatever the outcome of, the checks that may report an error. */
  function DirectiveStates(states: seq<P.State>, word: string): (r: seq<P.State>) {
    match P.ParseDirective(word)
    case Some(If) => [P.State.If] + states
    case Some(IfDef) => [P.State.If] + states
    case Some(Else) => [P.State.Else] + Tail(states)
    case Some(EndIf) => Tail(states)
    case None => states
  }

  /** The deque after `visit` has seen one comment. */
  function NextStates(states: seq<P.State>, text: string, prefix: Option<string>): (r: seq<P.State>) {
    if IsDirective(text, prefix) then DirectiveStates(states, Segments(text, |prefix.value|)[0])
    else states
  }

  /** The deque holds only the states the visitor pushes. */
  predicate OnlyOpenBlocks(states: seq<P.State>) {
    forall k :: 0 <= k < |states| ==> states[k] == P.State.If || states[k] == P.State.Else
  }

  /** Only IF and ELSE are ever pushed, so a deque that holds only those
      keeps holding only those. */
  lemma VisitKeepsOpenBlocks(states: seq<P.State>, text: string, prefix: Option<string>)
    requires OnlyOpenBlocks(states)
    ensures OnlyOpenBlocks(NextStates(states, text, prefix))
  {
  }

  // ---------------------------------------------------------------------
  // The spans one comment adds
  // ---------------------------------------------------------------------

  /** `#if`: without a condition the whole comment is an error; otherwise
      the spans of the condition terms come first and the keyword last. */
  function IfSpans(text: string, startOffset: int, prefixLength: nat, segments: seq<string>): (r: seq<Span>)
    requires 1 <= |segments|
  {
    if |segments| < 2 then [FailSpan(startOffset, text, MissingCondition)]
    else
      ConditionSpans(text, startOffset, SplitConnectives(segments[1]), prefixLength + 3)
      + [DirectiveSpan(startOffset, prefixLength, segments[0])]
  }

  /** `#ifdef`: the keyword and then the identifier, or an error when there
      is no identifier. */
  function IfDefSpans(text: string, startOffset: int, prefixLength: nat, segments: seq<string>): (r: seq<Span>)
    requires 1 <= |segments|
  {
    if |segments| < 2 then [FailSpan(startOffset, text, MissingIdentifier)]
    else [DirectiveSpan(startOffset, prefixLength, segments[0]), IdentifierSpan(startOffset, prefixLength, segments[1])]
  }

  /** `#else` and `#endif`, given the head the deque had: an error when the
      head is not a block this keyword may close, else an error when there
      are arguments, else the keyword. */
  function CloseSpans(head: Option<P.State>, keyword: string, text: string, startOffset: int, prefixLength: nat,
                      segments: seq<string>): (r: seq<Span>)
    requires 1 <= |segments|
  {
    var closable := head == Some(P.State.If) || (keyword == "endif" && head == Some(P.State.Else));
    if !closable then [FailSpan(startOffset, text, NoOpeningIf(keyword))]
    else if |segments| > 1 then [FailSpan(startOffset, text, NoArguments(keyword))]
    else [DirectiveSpan(startOffset, prefixLength, segments[0])]
  }

  /** The spans of a `#` comment, dispatched on the directive word. */
  function DirectiveSpans(states: seq<P.State>, text: string, startOffset: int, prefixLength: nat): (r: seq<Span>)
    requires prefixLength < |text|
  {
    var segments := Segments(text, prefixLength);
    match P.ParseDirective(segments[0])
    case Some(If) => IfSpans(text, startOffset, prefixLength, segments)
    case Some(IfDef) => IfDefSpans(text, startOffset, prefixLength, segments)
    case Some(Else) => CloseSpans(Head(states), "else", text, startOffset, prefixLength, segments)
    case Some(EndIf) => CloseSpans(Head(states), "endif", text, startOffset, prefixLength, segments)
    case None => [FailSpan(startOffset, text, Unknown(segments[0]))]
  }

  /** The spans `visit` adds for one comment, given the deque before it,
      the comment text, its document offset, the language's line-comment
      prefix (absent for languages without one) and the host lexer. */
  function AddedSpans(states: seq<P.State>, text: string, startOffset: int, prefix: Option<string>,
                      lexer: string -> seq<Token>): (r: seq<Span>)
  {
    if IsDirective(text, prefix) then DirectiveSpans(states, text, startOffset, |prefix.value|)
    else if IsCode(text, prefix) then
      var p := |prefix.value|;
      [DirectiveSpan(startOffset, p, "$$")] + CodeSpans(startOffset + p + 2, lexer(text[p + 2..]))
    else []
  }

  // ---------------------------------------------------------------------
  // What one visit does
  // ---------------------------------------------------------------------

  /** The directive word of a `#` comment. */
  function Word(text: string, prefix: Option<string>): (r: string)
    requires IsDirective(text, prefix)
  {
    Segments(text, |prefix.value|)[0]
  }

  /** A comment that is neither a directive nor a code marker (or has no
      body, or the language has no line-comment prefix) changes nothing. */
  lemma IgnoredComment(states: seq<P.State>, text: string, startOffset: int, prefix: Option<string>,
                       lexer: string -> seq<Token>)
    requires !IsDirective(text, prefix) && !IsCode(text, prefix)
    ensures NextStates(states, text, prefix) == states
    ensures AddedSpans(states, text, startOffset, prefix, lexer) == []
  {
  }

  /** `#if` and `#ifdef` always open a block, even when they report an
      error. Without an argument the only span is an error over the whole
      comment; with one, the keyword is highlighted: last for `#if`, after
      its condition spans, and first for `#ifdef`, before the identifier. */
  lemma IfOpensBlock(states: seq<P.State>, text: string, startOffset: int, prefix: Option<string>,
                     lexer: string -> seq<Token>)
    requires IsDirective(text, prefix) && Word(text, prefix) in {"if", "ifdef"}
    ensures NextStates(states, text, prefix) == [P.State.If] + states
    ensures var p := |prefix.value|;
      var segments := Segments(text, p);
      var added := AddedSpans(states, text, startOffset, prefix, lexer);
      && (|segments| == 1 ==>
            added == [FailSpan(startOffset, text,
                                if Word(text, prefix) == "if" then MissingCondition else MissingIdentifier)])
      && (|segments| == 2 && Word(text, prefix) == "if" ==>
            added == ConditionSpans(text, startOffset, SplitConnectives(segments[1]), p + 3)
                     + [DirectiveSpan(startOffset, p, "if")])
      && (|segments| == 2 && Word(text, prefix) == "ifdef" ==>
            added == [DirectiveSpan(startOffset, p, "ifdef"), IdentifierSpan(startOffset, p, segments[1])])
  {
    P.ParseKeyword(P.Directive.If);
    P.ParseKeyword(P.Directive.IfDef);
  }

  /** `#else` always leaves ELSE on top in place of the old head, so the
      deque never shrinks and grows only when it was empty. It reports
      "must have an opening if" exactly when the head was not IF; after an
      IF it reports arguments if there are any and highlights the keyword
      otherwise. */
  lemma ElseReplacesHead(states: seq<P.State>, text: string, startOffset: int, prefix: Option<string>,
                         lexer: string -> seq<Token>)
    requires IsDirective(text, prefix) && Word(text, prefix) == "else"
    ensures var next := NextStates(states, text, prefix);
      && next == [P.State.Else] + Tail(states)
      && |next| == if states == [] then 1 else |states|
    ensures var added := AddedSpans(states, text, startOffset, prefix, lexer);
      var p := |prefix.value|;
      && |added| == 1
      && (added[0] == FailSpan(startOffset, text, NoOpeningIf("else")) <==> Head(states) != Some(P.State.If))
      && (Head(states) == Some(P.State.If) ==>
            added[0] == if |Segments(text, p)| > 1 then FailSpan(startOffset, text, NoArguments("else"))
                        else DirectiveSpan(startOffset, p, "else"))
  {
    P.ParseKeyword(P.Directive.Else);
  }

  /** `#endif` always removes the head, and never underflows. It reports
      "must have an opening if" exactly when the head was neither IF nor
      ELSE, which for a deque of open blocks means exactly when it was
      empty; otherwise it reports arguments if there are any and highlights
      the keyword if not. */
  lemma EndIfRemovesHead(states: seq<P.State>, text: string, startOffset: int, prefix: Option<string>,
                         lexer: string -> seq<Token>)
    requires IsDirective(text, prefix) && Word(text, prefix) == "endif"
    ensures var next := NextStates(states, text, prefix);
      && next == Tail(states)
      && |next| == if states == [] then 0 else |states| - 1
    ensures var added := AddedSpans(states, text, startOffset, prefix, lexer);
      var p := |prefix.value|;
      var closes := Head(states) == Some(P.State.If) || Head(states) == Some(P.State.Else);
      && |added| == 1
      && (added[0] == FailSpan(startOffset, text, NoOpeningIf("endif")) <==> !closes)
      && (OnlyOpenBlocks(states) ==> (closes <==> states != []))
      && (closes ==>
            added[0] == if |Segments(text, p)| > 1 then FailSpan(startOffset, text, NoArguments("endif"))
                        else DirectiveSpan(startOffset, p, "endif"))
  {
    P.ParseKeyword(P.Directive.EndIf);
  }

  /** Any other word after `#` (matching is exact and case-sensitive)
      leaves the deque alone and reports the word as unknown. */
  lemma UnknownDirective(states: seq<P.State>, text: string, startOffset: int, prefix: Option<string>,
                         lexer: string -> seq<Token>)
    requires IsDirective(text, prefix) && Word(text, prefix) !in {"if", "ifdef", "else", "endif"}
    ensures NextStates(states, text, prefix) == states
    ensures AddedSpans(states, text, startOffset, prefix, lexer)
         == [FailSpan(startOffset, text, Unknown(Word(text, prefix)))]
  {
    P.ParseDirectiveExactly(Word(text, prefix));
  }

  /** A code comment adds the `$$` marker, three characters long from the
      end of the prefix, then one span per lexer token of the rest of the
      comment, shifted to the document; the deque is left alone. */
  lemma CodeBlockSpans(states: seq<P.State>, text: string, startOffset: int, prefix: Option<string>,
                       lexer: string -> seq<Token>)
    requires IsCode(text, prefix)
    ensures NextStates(states, text, prefix) == states
    ensures var p := |prefix.value|;
      var added := AddedSpans(states, text, startOffset, prefix, lexer);
      var tokens := lexer(text[p + 2..]);
      && |added| == 1 + |tokens|
      && added[0] == Span(startOffset + p, startOffset + p + 3, Directive)
      && forall k :: 0 <= k < |tokens| ==>
           added[k + 1] == Span(startOffset + p + 2 + tokens[k].start, startOffset + p + 2 + tokens[k].end, Injected)
  {
    assert text[|prefix.value|] == '$';
  }

  /** The `$$` marker span is one character longer than the marker: for
      the comment `//$$` it ends past the end of the comment. */
  lemma CodeMarkerOverrunsComment(states: seq<P.State>, startOffset: int, lexer: string -> seq<Token>)
    ensures var added := AddedSpans(states, "//$$", startOffset, Some("//"), lexer);
      added != [] && added[0].end == startOffset + |"//$$"| + 1
  {
    assert StartsWith("//$$", "//") && StartsWith("//$$"[2..], "$$");
  }

  /** How many of `spans` are keyword spans. */
  function Keywords(spans: seq<Span>): (r: nat)
    decreases |spans|
  {
    if spans == [] then 0
    else (if spans[0].kind == Directive then 1 else 0) + Keywords(spans[1..])
  }

  /** Counting keyword spans distributes over concatenation. */
  lemma {:induction false} KeywordsAppend(a: seq<Span>, b: seq<Span>)
    ensures Keywords(a + b) == Keywords(a) + Keywords(b)
    decreases |a|
  {
    if a != [] {
      assert (a + b)[1..] == a[1..] + b;
      KeywordsAppend(a[1..], b);
    } else {
      assert a + b == b;
    }
  }

  /** A sequence without keyword spans has none at any index. */
  lemma {:induction false} NoKeywordAt(spans: seq<Span>, k: int)
    requires Keywords(spans) == 0 && 0 <= k < |spans|
    ensures spans[k].kind != Directive
    decreases |spans|
  {
    if k > 0 {
      NoKeywordAt(spans[1..], k - 1);
    }
  }

  /** The spans of one term are operands or an error, never a keyword. */
  lemma TermSpansNoKeyword(term: string, startOffset: int, position: int)
    ensures Keywords(TermSpans(term, startOffset, position)) == 0
  {
    var r := TermSpans(term, startOffset, position);
    TermSpansShape(term, startOffset, position);
    if |r| == 2 {
      assert r[1..][0] == r[1] && r[1..][1..] == [];
      assert Keywords(r[1..]) == 0;
    } else {
      assert r[1..] == [];
    }
  }

  /** The condition loop adds no keyword span to those collected so far. */
  lemma {:induction false} ConditionLoopNoKeyword(text: string, startOffset: int, terms: seq<string>, from: int,
                                                  added: seq<Span>)
    ensures Keywords(ConditionLoop(text, startOffset, terms, from, added)) == Keywords(added)
    decreases |terms|
  {
    if terms != [] {
      var head, next := ConditionLoopStep(text, startOffset, terms, from, added);
      KeywordsAppend(added, head);
      ConditionLoopNoKeyword(text, startOffset, terms[1..], next, added + head);
    } else {
      assert ConditionLoop(text, startOffset, terms, from, added) == added;
    }
  }

  /** A keyword span followed by spans without keywords counts one. */
  lemma KeywordFirst(keyword: Span, rest: seq<Span>)
    requires keyword.kind == Directive && Keywords(rest) == 0
    ensures Keywords([keyword] + rest) == 1
  {
    assert ([keyword] + rest)[1..] == rest;
  }

  /** The shape `DirectiveRejectedOrHighlighted` promises, for the spans
      of a `#` comment whose keyword span is `keyword`: either one error
      over the whole comment, or `keyword` among the spans and no other
      keyword span. */
  predicate RejectedOrHighlighted(added: seq<Span>, keyword: Span, startOffset: int, text: string) {
    || (|added| == 1 && added[0].start == startOffset && added[0].end == startOffset + |text| && added[0].kind.Error?)
    || (keyword.kind == Directive && keyword in added && Keywords(added) == 1)
  }

  /** A `#if` with a condition: the keyword span comes last and no
      condition span is a keyword span. */
  lemma IfHighlightsOnce(text: string, startOffset: int, prefixLength: nat, segments: seq<string>)
    requires |segments| == 2
    ensures RejectedOrHighlighted(IfSpans(text, startOffset, prefixLength, segments),
                                  DirectiveSpan(startOffset, prefixLength, segments[0]), startOffset, text)
  {
    var terms := SplitConnectives(segments[1]);
    var keyword := DirectiveSpan(startOffset, prefixLength, segments[0]);
    var conditionSpans := ConditionSpans(text, startOffset, terms, prefixLength + 3);
    var added := IfSpans(text, startOffset, prefixLength, segments);
    ConditionLoopNoKeyword(text, startOffset, terms, prefixLength + 3, []);
    assert added == conditionSpans + [keyword];
    KeywordsAppend(conditionSpans, [keyword]);
    assert added[|conditionSpans|] == keyword;
  }

  /** A `#` comment is either rejected as a whole, with one error over the
      whole comment and nothing else, or its keyword is highlighted exactly
      once: the only keyword span is the one from the sigil to the end of
      the word, and it lies inside the comment. */
  lemma DirectiveRejectedOrHighlighted(states: seq<P.State>, text: string, startOffset: int,
                                       prefix: Option<string>, lexer: string -> seq<Token>)
    requires IsDirective(text, prefix)
    ensures var keyword := DirectiveSpan(startOffset, |prefix.value|, Word(text, prefix));
      && RejectedOrHighlighted(AddedSpans(states, text, startOffset, prefix, lexer), keyword, startOffset, text)
      && startOffset <= keyword.start < keyword.end <= startOffset + |text|
  {
    var p := |prefix.value|;
    var segments := Segments(text, p);
    assert |segments[0]| <= |text[p + 1..]|;
    assert AddedSpans(states, text, startOffset, prefix, lexer) == DirectiveSpans(states, text, startOffset, p);
    var keyword := DirectiveSpan(startOffset, p, segments[0]);
    match P.ParseDirective(segments[0])
    case Some(If) =>
      if |segments| == 2 {
        IfHighlightsOnce(text, startOffset, p, segments);
      }
    case Some(IfDef) =>
      if |segments| == 2 {
        var identifier := IdentifierSpan(startOffset, p, segments[1]);
        assert Keywords([identifier]) == 0 by {
          assert [identifier][1..] == [];
        }
        KeywordFirst(keyword, [identifier]);
        assert [keyword] + [identifier] == [keyword, identifier];
      }
    case Some(Else) =>
      KeywordFirst(keyword, []);
      assert [keyword] + [] == [keyword];
    case Some(EndIf) =>
      KeywordFirst(keyword, []);
      assert [keyword] + [] == [keyword];
    case None =>
  }

  /** For a `#if` comment with a condition, every term of the condition
      is found by the `indexOf` search: at or after the position three
      characters past the prefix, where the term really occurs in the
      comment, and each term after the end of the previous one. */
  lemma IfTermsFound(text: string, prefixLength: nat)
    requires prefixLength < |text|
    requires var segments := Segments(text, prefixLength); segments[0] == "if" && |segments| == 2
    ensures AllFound(text, SplitConnectives(Segments(text, prefixLength)[1]), prefixLength + 3)
  {
    var segments := Segments(text, prefixLength);
    var q := |text| - |segments[1]|;
    assert prefixLength + 3 <= q && text[q..] == segments[1] by {
      var body := text[prefixLength + 1..];
      assert text[q..] == body[|body| - |segments[1]|..];
    }
    ConditionFound(text, segments[1], prefixLength + 3, q);
  }

  /** The terms of a condition that starts at `q` in the comment are all
      found by searches starting at or before `q`. */
  lemma ConditionFound(text: string, condition: string, from: int, q: int)
    requires 0 <= q <= |text| && from <= q && text[q..] == condition
    ensures AllFound(text, SplitConnectives(condition), from)
  {
    TermsFound(text, SplitConnectives(condition), from, q);
  }

  // ---------------------------------------------------------------------
  // What the spans of a directive cover
  // ---------------------------------------------------------------------

  /** The keyword span of a `#` comment lies in the comment and covers the
      sigil and the directive word. */
  lemma KeywordCoversWord(text: string, startOffset: int, prefix: Option<string>)
    requires IsDirective(text, prefix)
    ensures var w := Word(text, prefix);
      var r := DirectiveSpan(startOffset, |prefix.value|, w);
      Lies(r, startOffset, |text|) && Covered(text, startOffset, r) == "#" + w
  {
    var p := |prefix.value|;
    var body := text[p + 1..];
    var w := Word(text, prefix);
    assert body[..|w|] == w;
    assert text[p..p + 1 + |w|] == [text[p]] + body[..|w|];
  }

  /** The identifier span of `#ifdef` lies in the comment. It covers the
      identifier exactly when a single whitespace character separates it
      from the keyword; after a longer run it starts inside the whitespace,
      since its start is fixed at seven characters past the prefix. */
  lemma IdentifierSpanCovers(text: string, startOffset: int, prefixLength: nat)
    requires prefixLength < |text|
    requires var segments := Segments(text, prefixLength); |segments| == 2 && segments[0] == "ifdef"
    ensures var identifier := Segments(text, prefixLength)[1];
      var r := IdentifierSpan(startOffset, prefixLength, identifier);
      var q := |text| - |identifier|;
      && prefixLength + 7 <= q && text[q..] == identifier
      && Lies(r, startOffset, |text|)
      && (q == prefixLength + 7 ==> Covered(text, startOffset, r) == identifier)
      && (q > prefixLength + 7 ==> IsRegexSpace(text[prefixLength + 7]))
  {
    var body := text[prefixLength + 1..];
    var segments := Segments(text, prefixLength);
    assert text[|text| - |segments[1]|..] == body[|body| - |segments[1]|..];
    if |text| - |segments[1]| > prefixLength + 7 {
      assert text[prefixLength + 7] == body[6];
    }
  }

  /** The spans of a term that occurs in the comment at `position` lie in
      the comment. */
  lemma TermSpansWithin(text: string, term: string, startOffset: int, position: int)
    requires OccursAt(text, term, position)
    ensures Within(TermSpans(term, startOffset, position), startOffset, |text|)
  {
    var r := TermSpans(term, startOffset, position);
    match MatchCondition(term)
    case None =>
      InvalidConditionCovers(text, term, startOffset, position);
    case Some(m) =>
      MatchGroups(term);
      OperandCovers(text, term, startOffset, position, m.lhsStart, m.lhsEnd);
      OperandCovers(text, term, startOffset, position, m.rhsStart, m.rhsEnd);
  }

  /** One turn of the condition loop appends the spans of the first term,
      which hold no keyword span and, when the term occurs where it was
      found, lie in the comment; the search then resumes after the term. */
  lemma ConditionLoopStep(text: string, startOffset: int, terms: seq<string>, from: int, added: seq<Span>)
    returns (head: seq<Span>, next: int)
    requires terms != []
    ensures ConditionLoop(text, startOffset, terms, from, added)
         == ConditionLoop(text, startOffset, terms[1..], next, added + head)
    ensures next == IndexOf(text, terms[0], from) + |terms[0]|
    ensures Keywords(head) == 0
    ensures OccursAt(text, terms[0], IndexOf(text, terms[0], from)) ==> Within(head, startOffset, |text|)
  {
    var position := IndexOf(text, terms[0], from);
    head, next := ConditionLoopFirst(text, startOffset, terms, from, added);
    assert Keywords(head) == 0 by {
      TermSpansNoKeyword(terms[0], startOffset, position);
    }
    if OccursAt(text, terms[0], position) {
      TermSpansWithin(text, terms[0], startOffset, position);
    }
  }

  /** When every term is found in the comment, the condition loop adds only
      spans that lie in the comment. */
  lemma {:induction false} ConditionLoopWithin(text: string, startOffset: int, terms: seq<string>, from: int,
                                               added: seq<Span>)
    requires AllFound(text, terms, from) && Within(added, startOffset, |text|)
    ensures Within(ConditionLoop(text, startOffset, terms, from, added), startOffset, |text|)
    decreases |terms|
  {
    if terms != [] {
      var head, next := ConditionLoopStep(text, startOffset, terms, from, added);
      WithinAppend(added, head, startOffset, |text|);
      ConditionLoopWithin(text, startOffset, terms[1..], next, added + head);
    } else {
      assert ConditionLoop(text, startOffset, terms, from, added) == added;
    }
  }

  /** The spans of `#if` lie in the comment. */
  lemma IfSpansWithin(text: string, startOffset: int, prefix: Option<string>)
    requires IsDirective(text, prefix) && Word(text, prefix) == "if"
    ensures var p := |prefix.value|;
      Within(IfSpans(text, startOffset, p, Segments(text, p)), startOffset, |text|)
  {
    var p := |prefix.value|;
    var segments := Segments(text, p);
    KeywordCoversWord(text, startOffset, prefix);
    if |segments| == 2 {
      var terms := SplitConnectives(segments[1]);
      IfTermsFound(text, p);
      ConditionLoopWithin(text, startOffset, terms, p + 3, []);
      WithinAppend(ConditionSpans(text, startOffset, terms, p + 3), [DirectiveSpan(startOffset, p, segments[0])],
                   startOffset, |text|);
    }
  }

  /** The spans of `#ifdef` lie in the comment. */
  lemma IfDefSpansWithin(text: string, startOffset: int, prefix: Option<string>)
    requires IsDirective(text, prefix) && Word(text, prefix) == "ifdef"
    ensures var p := |prefix.value|;
      Within(IfDefSpans(text, startOffset, p, Segments(text, p)), startOffset, |text|)
  {
    var p := |prefix.value|;
    KeywordCoversWord(text, startOffset, prefix);
    if |Segments(text, p)| == 2 {
      IdentifierSpanCovers(text, startOffset, p);
    }
  }

  /** The span of `#else` or `#endif` lies in the comment. */
  lemma CloseSpansWithin(head: Option<P.State>, keyword: string, text: string, startOffset: int, prefix: Option<string>)
    requires IsDirective(text, prefix)
    ensures var p := |prefix.value|;
      Within(CloseSpans(head, keyword, text, startOffset, p, Segments(text, p)), startOffset, |text|)
  {
    KeywordCoversWord(text, startOffset, prefix);
  }

  /** Every span a `#` comment adds lies in the comment: errors cover it
      whole, and keyword, operand, invalid-condition and identifier spans
      lie inside it. */
  lemma DirectiveSpansWithin(states: seq<P.State>, text: string, startOffset: int, prefix: Option<string>,
                             lexer: string -> seq<Token>)
    requires IsDirective(text, prefix)
    ensures Within(AddedSpans(states, text, startOffset, prefix, lexer), startOffset, |text|)
  {
    var p := |prefix.value|;
    var segments := Segments(text, p);
    assert AddedSpans(states, text, startOffset, prefix, lexer) == DirectiveSpans(states, text, startOffset, p);
    match P.ParseDirective(segments[0])
    case Some(If) => IfSpansWithin(text, startOffset, prefix);
    case Some(IfDef) => IfDefSpansWithin(text, startOffset, prefix);
    case Some(Else) => CloseSpansWithin(Head(states), "else", text, startOffset, prefix);
    case Some(EndIf) => CloseSpansWithin(Head(states), "endif", text, startOffset, prefix);
    case None =>
  }

  // ---------------------------------------------------------------------
  // A highlighting pass over the comments of one file
  // ---------------------------------------------------------------------

  /** A line comment of the file and its document offset. */
  datatype Comment = Comment(text: string, startOffset: int)

  /** The deque after one visitor has seen `comments` in document order. */
  function ScanStates(states: seq<P.State>, comments: seq<Comment>, prefix: Option<string>): (r: seq<P.State>)
    decreases |comments|
  {
    if comments == [] then states
    else ScanStates(NextStates(states, comments[0].text, prefix), comments[1..], prefix)
  }

  /** Everything one visitor adds while it sees `comments` in document
      order. */
  function ScanSpans(states: seq<P.State>, comments: seq<Comment>, prefix: Option<string>,
                     lexer: string -> seq<Token>): (r: seq<Span>)
    decreases |comments|
  {
    if comments == [] then []
    else
      AddedSpans(states, comments[0].text, comments[0].startOffset, prefix, lexer)
      + ScanSpans(NextStates(states, comments[0].text, prefix), comments[1..], prefix, lexer)
  }

  /** A pass visits its first comment, then the rest from the deque that
      visit left. */
  lemma ScanCons(states: seq<P.State>, c: Comment, rest: seq<Comment>, prefix: Option<string>,
                 lexer: string -> seq<Token>, head: seq<Span>, next: seq<P.State>)
    requires AddedSpans(states, c.text, c.startOffset, prefix, lexer) == head
    requires NextStates(states, c.text, prefix) == next
    ensures ScanSpans(states, [c] + rest, prefix, lexer) == head + ScanSpans(next, rest, prefix, lexer)
    ensures ScanStates(states, [c] + rest, prefix) == ScanStates(next, rest, prefix)
  {
    assert ([c] + rest)[0] == c && ([c] + rest)[1..] == rest;
  }

  /** Over a whole pass the deque holds only IF and ELSE. */
  lemma {:induction false} ScanKeepsOpenBlocks(states: seq<P.State>, comments: seq<Comment>, prefix: Option<string>)
    requires OnlyOpenBlocks(states)
    ensures OnlyOpenBlocks(ScanStates(states, comments, prefix))
    decreases |comments|
  {
    if comments != [] {
      VisitKeepsOpenBlocks(states, comments[0].text, prefix);
      ScanKeepsOpenBlocks(NextStates(states, comments[0].text, prefix), comments[1..], prefix);
    }
  }

  // ---------------------------------------------------------------------
  // The visitor
  // ---------------------------------------------------------------------

  class Visitor {
    /** `preprocessorState`: the deque of open blocks, head first. */
    var states: seq<P.State>
    /** What has been added to the highlight holder so far, in order. */
    var spans: seq<Span>

    ghost predicate Valid()
      reads this
    {
      OnlyOpenBlocks(states)
    }

    /** A fresh visitor, as `clone()` makes one: nothing open, nothing added. */
    constructor ()
      ensures Valid() && states == [] && spans == []
    {
      states := [];
      spans := [];
    }

    /** `ArrayDeque.push`: adds at the head. */
    method Push(state: P.State)
      modifies this`states
      ensures states == [state] + old(states)
    {
      states := [state] + states;
    }

    /** `ArrayDeque.pollFirst`: removes and returns the head, or nothing
        when the deque is empty. */
    method PollFirst() returns (head: Option<P.State>)
      modifies this`states
      ensures head == Head(old(states)) && states == Tail(old(states))
    {
      if states == [] {
        head := Option.None;
      } else {
        head := Some(states[0]);
        states := states[1..];
      }
    }

    method Add(span: Span)
      modifies this`spans
      ensures spans == old(spans) + [span]
    {
      spans := spans + [span];
    }

    /** The `#if` branch. */
    method VisitIf(text: string, startOffset: int, prefixLength: nat, segments: seq<string>)
      requires 1 <= |segments| <= 2
      modifies this
      ensures states == [P.State.If] + old(states)
      ensures spans == old(spans) + IfSpans(text, startOffset, prefixLength, segments)
    {
      Push(P.State.If);
      if |segments| < 2 {
        Add(FailSpan(startOffset, text, MissingCondition));
        return;
      }
      var conditions := SplitConnectives(segments[1]);
      var added := HighlightConditions(text, startOffset, prefixLength, conditions);
      spans := spans + added;
      Add(DirectiveSpan(startOffset, prefixLength, segments[0]));
    }

    /** The `#ifdef` branch. */
    method VisitIfDef(text: string, startOffset: int, prefixLength: nat, segments: seq<string>)
      requires 1 <= |segments| <= 2
      modifies this
      ensures states == [P.State.If] + old(states)
      ensures spans == old(spans) + IfDefSpans(text, startOffset, prefixLength, segments)
    {
      Push(P.State.If);
      if |segments| < 2 {
        Add(FailSpan(startOffset, text, MissingIdentifier));
        return;
      }
      Add(DirectiveSpan(startOffset, prefixLength, segments[0]));
      Add(IdentifierSpan(startOffset, prefixLength, segments[1]));
    }

    /** The `#else` branch. */
    method VisitElse(text: string, startOffset: int, prefixLength: nat, segments: seq<string>)
      requires 1 <= |segments| <= 2
      modifies this
      ensures states == [P.State.Else] + Tail(old(states))
      ensures spans == old(spans) + CloseSpans(Head(old(states)), "else", text, startOffset, prefixLength, segments)
    {
      var state := PollFirst();
      Push(P.State.Else);
      if state != Some(P.State.If) {
        Add(FailSpan(startOffset, text, NoOpeningIf("else")));
        return;
      }
      if |segments| > 1 {
        Add(FailSpan(startOffset, text, NoArguments("else")));
        return;
      }
      Add(DirectiveSpan(startOffset, prefixLength, segments[0]));
    }

    /** The `#endif` branch. */
    method VisitEndIf(text: string, startOffset: int, prefixLength: nat, segments: seq<string>)
      requires 1 <= |segments| <= 2
      modifies this
      ensures states == Tail(old(states))
      ensures spans == old(spans) + CloseSpans(Head(old(states)), "endif", text, startOffset, prefixLength, segments)
    {
      var state := PollFirst();
      if state != Some(P.State.If) && state != Some(P.State.Else) {
        Add(FailSpan(startOffset, text, NoOpeningIf("endif")));
        return;
      }
      if |segments| > 1 {
        Add(FailSpan(startOffset, text, NoArguments("endif")));
        return;
      }
      Add(DirectiveSpan(startOffset, prefixLength, segments[0]));
    }

    /** The `#` branch of `visit`: the directive word is looked up and the
        deque and the holder change as it says. */
    method VisitDirective(text: string, startOffset: int, prefixLength: nat)
      requires prefixLength < |text|
      modifies this
      ensures states == DirectiveStates(old(states), Segments(text, prefixLength)[0])
      ensures spans == old(spans) + DirectiveSpans(old(states), text, startOffset, prefixLength)
    {
      var commentSegments := SplitAtWhitespace(text[prefixLength + 1..]);
      match P.ParseDirective(commentSegments[0])
      case Some(If) => VisitIf(text, startOffset, prefixLength, commentSegments);
      case Some(IfDef) => VisitIfDef(text, startOffset, prefixLength, commentSegments);
      case Some(Else) => VisitElse(text, startOffset, prefixLength, commentSegments);
      case Some(EndIf) => VisitEndIf(text, startOffset, prefixLength, commentSegments);
      case None => Add(FailSpan(startOffset, text, Unknown(commentSegments[0])));
    }

    /** `visit`: handles one comment, changing the deque and adding spans
        as `NextStates` and `AddedSpans` say. */
    method Visit(text: string, startOffset: int, prefix: Option<string>, lexer: string -> seq<Token>)
      requires Valid()
      modifies this
      ensures Valid()
      ensures states == NextStates(old(states), text, prefix)
      ensures spans == old(spans) + AddedSpans(old(states), text, startOffset, prefix, lexer)
    {
      VisitKeepsOpenBlocks(states, text, prefix);
      if prefix.None? || !StartsWith(text, prefix.value) {
        return;
      }
      var prefixLength := |prefix.value|;
      var comment := text[prefixLength..];
      if comment == [] {
        return;
      }
      if comment[0] == '#' {
        VisitDirective(text, startOffset, prefixLength);
      } else if StartsWith(comment, "$$") {
        Add(DirectiveSpan(startOffset, prefixLength, "$$"));
        assert comment[2..] == text[prefixLength + 2..];
        var added := HighlightCodeBlock(startOffset + prefixLength + 2, lexer(comment[2..]));
        assert added == CodeSpans(startOffset + prefixLength + 2, lexer(comment[2..]));
        spans := spans + added;
      }
    }
  }
}
