/** Well-formed nesting of directive blocks: a file whose `#if`/`#ifdef`
    blocks are balanced, each with at most one `#else` and closed by
    `#endif`, leaves the deque of open blocks as it found it and is never
    told that an `#else` or `#endif` "must have an opening if"; when every
    directive also has exactly the arguments it needs and every condition
    term is a comparison, no error is reported at all. */
module Nesting {
  import opened Wrappers
  import opened Text
  import opened Condition
  import opened Highlight
  import P = Preprocessor

  // ---------------------------------------------------------------------
  // Blocks of comments
  // ---------------------------------------------------------------------

  /** A comment outside any directive, or a block opened by `#if`/`#ifdef`
      with its body, optionally an `#else` with the other body, and the
      closing `#endif`. */
  datatype Nest =
    | Plain(comment: Comment)
    | IfBlock(open: Comment, body: seq<Nest>, close: Comment)
    | IfElseBlock(open: Comment, body: seq<Nest>, otherwise: Comment, alternative: seq<Nest>, close: Comment)

  /** The comments of a sequence of blocks, in document order. */
  function Flatten(ns: seq<Nest>): (r: seq<Comment>)
    ensures |r| >= |ns|
    decreases ns
  {
    if ns == [] then [] else FlattenOne(ns[0]) + Flatten(ns[1..])
  }

  /** The comments of one block, in document order. */
  function FlattenOne(n: Nest): (r: seq<Comment>)
    ensures |r| >= 1
    decreases n
  {
    match n
    case Plain(c) => [c]
    case IfBlock(o, body, c) => [o] + Flatten(body) + [c]
    case IfElseBlock(o, body, e, alt, c) => [o] + Flatten(body) + [e] + Flatten(alt) + [c]
  }

  /** A `#` comment whose directive word is `w`. */
  predicate IsKeyword(c: Comment, prefix: Option<string>, w: string) {
    IsDirective(c.text, prefix) && Word(c.text, prefix) == w
  }

  /** A comment that opens a block. */
  predicate Opens(c: Comment, prefix: Option<string>) {
    IsKeyword(c, prefix, "if") || IsKeyword(c, prefix, "ifdef")
  }

  /** Balanced blocks whose comments outside the block keywords are not
      directives. */
  predicate WellNested(ns: seq<Nest>, prefix: Option<string>)
    decreases ns
  {
    ns == [] || (WellNestedOne(ns[0], prefix) && WellNested(ns[1..], prefix))
  }

  predicate WellNestedOne(n: Nest, prefix: Option<string>)
    decreases n
  {
    match n
    case Plain(c) => !IsDirective(c.text, prefix)
    case IfBlock(o, body, c) =>
      Opens(o, prefix) && WellNested(body, prefix) && IsKeyword(c, prefix, "endif")
    case IfElseBlock(o, body, e, alt, c) =>
      && Opens(o, prefix) && WellNested(body, prefix) && IsKeyword(e, prefix, "else")
      && WellNested(alt, prefix) && IsKeyword(c, prefix, "endif")
  }

  /** An opening directive with its argument, every term of an `#if`
      condition being a comparison. */
  predicate CleanOpen(c: Comment, prefix: Option<string>) {
    && Opens(c, prefix)
    && |Segments(c.text, |prefix.value|)| == 2
    && (Word(c.text, prefix) == "if" ==> Invalids(SplitConnectives(Segments(c.text, |prefix.value|)[1])) == 0)
  }

  /** How many of `terms` do not match the comparison pattern. */
  function Invalids(terms: seq<string>): (r: nat)
    decreases |terms|
  {
    if terms == [] then 0
    else (if MatchCondition(terms[0]).None? then 1 else 0) + Invalids(terms[1..])
  }

  /** An `#else` or `#endif` without arguments. */
  predicate CleanClose(c: Comment, prefix: Option<string>, w: string) {
    IsKeyword(c, prefix, w) && |Segments(c.text, |prefix.value|)| == 1
  }

  /** Well-nested blocks whose directives are all well-formed. */
  predicate Clean(ns: seq<Nest>, prefix: Option<string>)
    decreases ns
  {
    ns == [] || (CleanOne(ns[0], prefix) && Clean(ns[1..], prefix))
  }

  predicate CleanOne(n: Nest, prefix: Option<string>)
    decreases n
  {
    match n
    case Plain(c) => !IsDirective(c.text, prefix)
    case IfBlock(o, body, c) =>
      CleanOpen(o, prefix) && Clean(body, prefix) && CleanClose(c, prefix, "endif")
    case IfElseBlock(o, body, e, alt, c) =>
      && CleanOpen(o, prefix) && Clean(body, prefix) && CleanClose(e, prefix, "else")
      && Clean(alt, prefix) && CleanClose(c, prefix, "endif")
  }

  // ---------------------------------------------------------------------
  // Errors among the spans
  // ---------------------------------------------------------------------

  /** The error an `#else` or `#endif` gets when no block is open: "must
      have an opening if", whichever keyword it names. */
  predicate Unmatched(s: Span) {
    s.kind.Error? && s.kind.message.NoOpeningIf?
  }

  /** How many of `spans` are unmatched block errors. */
  function Unmatcheds(spans: seq<Span>): (r: nat)
    decreases |spans|
  {
    if spans == [] then 0
    else (if Unmatched(spans[0]) then 1 else 0) + Unmatcheds(spans[1..])
  }

  /** How many of `spans` are errors. */
  function Errors(spans: seq<Span>): (r: nat)
    decreases |spans|
  {
    if spans == [] then 0
    else (if spans[0].kind.Error? then 1 else 0) + Errors(spans[1..])
  }

  /** Counting distributes over concatenation. */
  lemma {:induction false} CountsAppend(a: seq<Span>, b: seq<Span>)
    ensures Unmatcheds(a + b) == Unmatcheds(a) + Unmatcheds(b)
    ensures Errors(a + b) == Errors(a) + Errors(b)
    decreases |a|
  {
    if a == [] {
      assert a + b == b;
    } else {
      assert (a + b)[0] == a[0] && (a + b)[1..] == a[1..] + b;
      CountsAppend(a[1..], b);
    }
  }

  /** Only an error can be an unmatched block error. */
  lemma {:induction false} UnmatchedsAtMostErrors(spans: seq<Span>)
    ensures Unmatcheds(spans) <= Errors(spans)
    decreases |spans|
  {
    if spans != [] {
      UnmatchedsAtMostErrors(spans[1..]);
    }
  }

  /** A term either highlights its two operands, which are never errors, or
      reports one invalid condition, which is not an unmatched block
      error. */
  lemma TermSpansErrors(term: string, startOffset: int, position: int)
    ensures Unmatcheds(TermSpans(term, startOffset, position)) == 0
    ensures Errors(TermSpans(term, startOffset, position)) == if MatchCondition(term).Some? then 0 else 1
  {
    var r := TermSpans(term, startOffset, position);
    TermSpansShape(term, startOffset, position);
    if MatchCondition(term).None? {
      assert r[1..] == [];
    } else {
      assert r[1..][0] == r[1] && r[1..][1..] == [];
      assert Unmatcheds(r[1..]) == 0 && Errors(r[1..]) == 0;
    }
  }

  /** One turn of the condition loop appends the spans of the first term,
      which hold no unmatched block error and one error exactly when the
      term is not a comparison. */
  lemma ConditionLoopCountStep(text: string, startOffset: int, terms: seq<string>, from: int, added: seq<Span>)
    returns (head: seq<Span>, next: int)
    requires terms != []
    ensures ConditionLoop(text, startOffset, terms, from, added)
         == ConditionLoop(text, startOffset, terms[1..], next, added + head)
    ensures Unmatcheds(head) == 0
    ensures Errors(head) == if MatchCondition(terms[0]).Some? then 0 else 1
  {
    var position := IndexOf(text, terms[0], from);
    head, next := ConditionLoopFirst(text, startOffset, terms, from, added);
    assert Unmatcheds(head) == 0 && Errors(head) == if MatchCondition(terms[0]).Some? then 0 else 1 by {
      TermSpansErrors(terms[0], startOffset, position);
    }
  }

  /** The condition loop never reports an unmatched block. */
  lemma {:induction false} ConditionLoopUnmatcheds(text: string, startOffset: int, terms: seq<string>, from: int,
                                                   added: seq<Span>)
    ensures Unmatcheds(ConditionLoop(text, startOffset, terms, from, added)) == Unmatcheds(added)
    decreases |terms|
  {
    if terms != [] {
      var head, next := ConditionLoopCountStep(text, startOffset, terms, from, added);
      ConditionLoopUnmatcheds(text, startOffset, terms[1..], next, added + head);
      CountsAppend(added, head);
    } else {
      assert ConditionLoop(text, startOffset, terms, from, added) == added;
    }
  }

  /** The condition loop reports one error for each term that is not a
      comparison, and no other. */
  lemma {:induction false} ConditionLoopErrors(text: string, startOffset: int, terms: seq<string>, from: int,
                                               added: seq<Span>)
    ensures Errors(ConditionLoop(text, startOffset, terms, from, added)) == Errors(added) + Invalids(terms)
    decreases |terms|
  {
    if terms != [] {
      var head, next := ConditionLoopCountStep(text, startOffset, terms, from, added);
      ConditionLoopErrors(text, startOffset, terms[1..], next, added + head);
      CountsAppend(added, head);
    } else {
      assert ConditionLoop(text, startOffset, terms, from, added) == added;
    }
  }

  // ---------------------------------------------------------------------
  // One comment at a time
  // ---------------------------------------------------------------------

  /** Scanning `comments` from the deque `before` ends with the deque
      `after`, reports no unmatched block, and, when `clean`, no error. */
  predicate Leads(before: seq<P.State>, comments: seq<Comment>, after: seq<P.State>, clean: bool,
                  prefix: Option<string>, lexer: string -> seq<Token>)
  {
    && ScanStates(before, comments, prefix) == after
    && Unmatcheds(ScanSpans(before, comments, prefix, lexer)) == 0
    && (clean ==> Errors(ScanSpans(before, comments, prefix, lexer)) == 0)
  }

  /** The deque after a scan over `a + b` is the deque after a scan over
      `b` from the deque `a` left behind. */
  lemma {:induction false} ScanStatesAppend(states: seq<P.State>, a: seq<Comment>, b: seq<Comment>,
                                            prefix: Option<string>)
    ensures ScanStates(states, a + b, prefix) == ScanStates(ScanStates(states, a, prefix), b, prefix)
    decreases |a|
  {
    if a == [] {
      assert a + b == b;
    } else {
      assert (a + b)[0] == a[0] && (a + b)[1..] == a[1..] + b;
      ScanStatesAppend(NextStates(states, a[0].text, prefix), a[1..], b, prefix);
    }
  }

  /** The spans of a scan over `a + b` are those of the scan over `a`,
      then those of the scan over `b` from the deque `a` left behind. */
  lemma {:induction false} ScanSpansAppend(states: seq<P.State>, a: seq<Comment>, b: seq<Comment>,
                                           prefix: Option<string>, lexer: string -> seq<Token>)
    ensures ScanSpans(states, a + b, prefix, lexer)
         == ScanSpans(states, a, prefix, lexer) + ScanSpans(ScanStates(states, a, prefix), b, prefix, lexer)
    decreases |a|
  {
    if a == [] {
      assert a + b == b;
    } else {
      var head, next := ScanStep(states, a, b, prefix, lexer);
      ScanSpansAppend(next, a[1..], b, prefix, lexer);
      ConcatAssociates(head, ScanSpans(next, a[1..], prefix, lexer),
                       ScanSpans(ScanStates(next, a[1..], prefix), b, prefix, lexer));
    }
  }

  /** Regrouping a concatenation of spans. Stated over plain variables so
      that `ScanSpansAppend` can regroup its terms without the verifier
      unfolding them. */
  lemma ConcatAssociates(x: seq<Span>, y: seq<Span>, z: seq<Span>)
    ensures x + (y + z) == (x + y) + z
  {
  }

  /** The first comment of `a` is scanned first, whether or not `b` comes
      after `a`. */
  lemma ScanStep(states: seq<P.State>, a: seq<Comment>, b: seq<Comment>, prefix: Option<string>,
                 lexer: string -> seq<Token>) returns (head: seq<Span>, next: seq<P.State>)
    requires a != []
    ensures ScanSpans(states, a + b, prefix, lexer) == head + ScanSpans(next, a[1..] + b, prefix, lexer)
    ensures ScanSpans(states, a, prefix, lexer) == head + ScanSpans(next, a[1..], prefix, lexer)
    ensures ScanStates(states, a, prefix) == ScanStates(next, a[1..], prefix)
  {
    head := AddedSpans(states, a[0].text, a[0].startOffset, prefix, lexer);
    next := NextStates(states, a[0].text, prefix);
    assert (a + b)[0] == a[0] && (a + b)[1..] == a[1..] + b;
  }

  lemma LeadsAppend(s0: seq<P.State>, a: seq<Comment>, s1: seq<P.State>, b: seq<Comment>, s2: seq<P.State>,
                    cleanA: bool, cleanB: bool, prefix: Option<string>, lexer: string -> seq<Token>)
    requires Leads(s0, a, s1, cleanA, prefix, lexer) && Leads(s1, b, s2, cleanB, prefix, lexer)
    ensures Leads(s0, a + b, s2, cleanA && cleanB, prefix, lexer)
  {
    ScanStatesAppend(s0, a, b, prefix);
    ScanSpansAppend(s0, a, b, prefix, lexer);
    var spansA := ScanSpans(s0, a, prefix, lexer);
    var spansB := ScanSpans(s1, b, prefix, lexer);
    CountsAppend(spansA, spansB);
  }

  /** A single comment is scanned by one visit. */
  lemma ScanOne(states: seq<P.State>, c: Comment, prefix: Option<string>, lexer: string -> seq<Token>)
    ensures ScanStates(states, [c], prefix) == NextStates(states, c.text, prefix)
    ensures ScanSpans(states, [c], prefix, lexer) == AddedSpans(states, c.text, c.startOffset, prefix, lexer)
  {
    assert [c][1..] == [];
  }

  /** What one visit does, as a scan over that one comment. */
  lemma LeadsOne(before: seq<P.State>, c: Comment, after: seq<P.State>, clean: bool,
                 prefix: Option<string>, lexer: string -> seq<Token>)
    requires NextStates(before, c.text, prefix) == after
    requires Unmatcheds(AddedSpans(before, c.text, c.startOffset, prefix, lexer)) == 0
    requires clean ==> Errors(AddedSpans(before, c.text, c.startOffset, prefix, lexer)) == 0
    ensures Leads(before, [c], after, clean, prefix, lexer)
  {
    ScanOne(before, c, prefix, lexer);
  }

  /** Spans none of which is an error. */
  lemma {:induction false} NoErrorAmong(spans: seq<Span>)
    requires forall i :: 0 <= i < |spans| ==> !spans[i].kind.Error?
    ensures Errors(spans) == 0
    decreases |spans|
  {
    if spans != [] {
      NoErrorAmong(spans[1..]);
    }
  }

  /** A comment that is not a directive leaves the deque alone and reports
      nothing. */
  lemma PlainLeads(states: seq<P.State>, c: Comment, prefix: Option<string>, lexer: string -> seq<Token>)
    requires !IsDirective(c.text, prefix)
    ensures Leads(states, [c], states, true, prefix, lexer)
  {
    ScanOne(states, c, prefix, lexer);
    if IsCode(c.text, prefix) {
      CodeBlockSpans(states, c.text, c.startOffset, prefix, lexer);
      var added := AddedSpans(states, c.text, c.startOffset, prefix, lexer);
      assert forall i :: 0 <= i < |added| ==> !added[i].kind.Error? by {
        forall i | 0 <= i < |added| ensures !added[i].kind.Error? {
          if i > 0 {
            assert added[(i - 1) + 1].kind == Injected;
          }
        }
      }
      NoErrorAmong(added);
      UnmatchedsAtMostErrors(added);
    } else {
      IgnoredComment(states, c.text, c.startOffset, prefix, lexer);
    }
  }

  /** `#if` and `#ifdef` push IF and never report an unmatched block; with
      their argument and comparison terms they report no error. */
  lemma OpenLeads(states: seq<P.State>, c: Comment, prefix: Option<string>, lexer: string -> seq<Token>)
    requires Opens(c, prefix)
    ensures Leads(states, [c], [P.State.If] + states, CleanOpen(c, prefix), prefix, lexer)
  {
    ScanOne(states, c, prefix, lexer);
    IfOpensBlock(states, c.text, c.startOffset, prefix, lexer);
    if |Segments(c.text, |prefix.value|)| == 1 {
    } else if Word(c.text, prefix) == "if" {
      IfConditionErrors(states, c, prefix, lexer);
    } else {
      var added := AddedSpans(states, c.text, c.startOffset, prefix, lexer);
      assert added[1..][0] == added[1] && added[1..][1..] == [];
      assert Errors(added[1..]) == 0;
      UnmatchedsAtMostErrors(added);
    }
  }

  /** The spans of `#if` with a condition: those of its terms, then the
      keyword. */
  lemma IfConditionErrors(states: seq<P.State>, c: Comment, prefix: Option<string>, lexer: string -> seq<Token>)
    requires IsKeyword(c, prefix, "if") && |Segments(c.text, |prefix.value|)| == 2
    ensures var added := AddedSpans(states, c.text, c.startOffset, prefix, lexer);
      Unmatcheds(added) == 0 && (CleanOpen(c, prefix) ==> Errors(added) == 0)
  {
    var p := |prefix.value|;
    var terms := SplitConnectives(Segments(c.text, p)[1]);
    var conditionSpans := ConditionSpans(c.text, c.startOffset, terms, p + 3);
    IfOpensBlock(states, c.text, c.startOffset, prefix, lexer);
    var keyword := [DirectiveSpan(c.startOffset, p, "if")];
    ConditionLoopUnmatcheds(c.text, c.startOffset, terms, p + 3, []);
    CountsAppend(conditionSpans, keyword);
    if CleanOpen(c, prefix) {
      ConditionLoopErrors(c.text, c.startOffset, terms, p + 3, []);
    }
  }

  /** `#else` after IF replaces it by ELSE and reports no unmatched block;
      without arguments it reports no error. */
  lemma ElseLeads(states: seq<P.State>, c: Comment, prefix: Option<string>, lexer: string -> seq<Token>)
    requires IsKeyword(c, prefix, "else")
    ensures Leads([P.State.If] + states, [c], [P.State.Else] + states, CleanClose(c, prefix, "else"), prefix, lexer)
  {
    var inner := [P.State.If] + states;
    ElseReplacesHead(inner, c.text, c.startOffset, prefix, lexer);
    LeadsOne(inner, c, [P.State.Else] + states, CleanClose(c, prefix, "else"), prefix, lexer);
  }

  /** `#endif` after IF or ELSE removes it and reports no unmatched block;
      without arguments it reports no error. */
  lemma EndIfLeads(head: P.State, states: seq<P.State>, c: Comment, prefix: Option<string>,
                   lexer: string -> seq<Token>)
    requires head == P.State.If || head == P.State.Else
    requires IsKeyword(c, prefix, "endif")
    ensures Leads([head] + states, [c], states, CleanClose(c, prefix, "endif"), prefix, lexer)
  {
    var inner := [head] + states;
    EndIfRemovesHead(inner, c.text, c.startOffset, prefix, lexer);
    LeadsOne(inner, c, states, CleanClose(c, prefix, "endif"), prefix, lexer);
  }

  // ---------------------------------------------------------------------
  // Whole blocks
  // ---------------------------------------------------------------------

  /** Balanced blocks bring the deque back to where it was, from any
      deque, and never report an `#else` or `#endif` without an opening
      `#if`; clean ones report no error at all. */
  lemma {:induction false} NestedLeads(states: seq<P.State>, ns: seq<Nest>, prefix: Option<string>,
                                       lexer: string -> seq<Token>)
    requires WellNested(ns, prefix)
    ensures Leads(states, Flatten(ns), states, Clean(ns, prefix), prefix, lexer)
    decreases ns
  {
    if ns == [] {
      assert Flatten(ns) == [];
    } else {
      BlockLeads(states, ns[0], prefix, lexer);
      NestedLeads(states, ns[1..], prefix, lexer);
      LeadsAppend(states, FlattenOne(ns[0]), states, Flatten(ns[1..]), states,
                  CleanOne(ns[0], prefix), Clean(ns[1..], prefix), prefix, lexer);
    }
  }

  /** One balanced block (or a plain comment) brings the deque back to
      where it was. */
  lemma {:induction false} BlockLeads(states: seq<P.State>, n: Nest, prefix: Option<string>,
                                      lexer: string -> seq<Token>)
    requires WellNestedOne(n, prefix)
    ensures Leads(states, FlattenOne(n), states, CleanOne(n, prefix), prefix, lexer)
    decreases n
  {
    match n
    case Plain(c) =>
      PlainLeads(states, c, prefix, lexer);
    case IfBlock(o, body, c) =>
      var inner := [P.State.If] + states;
      OpenLeads(states, o, prefix, lexer);
      NestedLeads(inner, body, prefix, lexer);
      EndIfLeads(P.State.If, states, c, prefix, lexer);
      LeadsAppend(states, [o], inner, Flatten(body), inner,
                  CleanOpen(o, prefix), Clean(body, prefix), prefix, lexer);
      LeadsAppend(states, [o] + Flatten(body), inner, [c], states,
                  CleanOpen(o, prefix) && Clean(body, prefix), CleanClose(c, prefix, "endif"), prefix, lexer);
    case IfElseBlock(o, body, e, alt, c) =>
      var inner := [P.State.If] + states;
      var other := [P.State.Else] + states;
      OpenLeads(states, o, prefix, lexer);
      NestedLeads(inner, body, prefix, lexer);
      ElseLeads(states, e, prefix, lexer);
      NestedLeads(other, alt, prefix, lexer);
      EndIfLeads(P.State.Else, states, c, prefix, lexer);
      var first := CleanOpen(o, prefix) && Clean(body, prefix);
      LeadsAppend(states, [o], inner, Flatten(body), inner,
                  CleanOpen(o, prefix), Clean(body, prefix), prefix, lexer);
      LeadsAppend(states, [o] + Flatten(body), inner, [e], other,
                  first, CleanClose(e, prefix, "else"), prefix, lexer);
      LeadsAppend(states, [o] + Flatten(body) + [e], other, Flatten(alt), other,
                  first && CleanClose(e, prefix, "else"), Clean(alt, prefix), prefix, lexer);
      LeadsAppend(states, [o] + Flatten(body) + [e] + Flatten(alt), other, [c], states,
                  first && CleanClose(e, prefix, "else") && Clean(alt, prefix), CleanClose(c, prefix, "endif"),
                  prefix, lexer);
  }

  /** A count of zero means no span of that class. */
  lemma {:induction false} CountsZero(spans: seq<Span>)
    ensures Unmatcheds(spans) == 0 <==> forall i :: 0 <= i < |spans| ==> !Unmatched(spans[i])
    ensures Errors(spans) == 0 <==> forall i :: 0 <= i < |spans| ==> !spans[i].kind.Error?
    decreases |spans|
  {
    if spans != [] {
      CountsZero(spans[1..]);
      assert forall i :: 1 <= i < |spans| ==> spans[i] == spans[1..][i - 1];
    }
  }

  /** From any deque, a pass over balanced blocks ends with the same deque
      and reports no `#else` or `#endif` as lacking an opening `#if`; when
      the blocks are also clean it reports no error at all. */
  lemma BalancedBlocks(states: seq<P.State>, ns: seq<Nest>, prefix: Option<string>, lexer: string -> seq<Token>)
    requires WellNested(ns, prefix)
    ensures ScanStates(states, Flatten(ns), prefix) == states
    ensures var spans := ScanSpans(states, Flatten(ns), prefix, lexer);
      && (forall i :: 0 <= i < |spans| ==> !Unmatched(spans[i]))
      && (Clean(ns, prefix) ==> forall i :: 0 <= i < |spans| ==> !spans[i].kind.Error?)
  {
    NestedLeads(states, ns, prefix, lexer);
    CountsZero(ScanSpans(states, Flatten(ns), prefix, lexer));
  }
}
