/** Worked examples of the directive scanner on concrete comments, with
    `//` as the line-comment prefix. */
module Examples {
  import opened Wrappers
  import opened Text
  import opened Condition
  import opened Highlight
  import P = Preprocessor

  /** `a < 5`: the identifier `a` and the number `5`. */
  lemma LessThanNumber()
    ensures MatchCondition("a < 5") == Some(Relation(0, 2, "<", 3, 5))
  {
    var s := "a < 5";
    assert NoLineTerminator(s);
    assert OperatorAt(s, 3).None? && OperatorAt(s, 4).None?;
    RightmostMatch(s, 2, "<");
  }

  /** The directive word and the condition of `//#if a < 5`. */
  lemma IfSegments()
    ensures Segments("//#if a < 5", 2) == ["if", "a < 5"]
  {
    var body := "//#if a < 5"[3..];
    assert body == "if a < 5";
    SplitAtRun(body, 2, 3);
    assert body[..2] == "if" && body[3..] == "a < 5";
  }

  /** The condition is one term, found right after the separator. */
  lemma IfTermPosition()
    ensures SplitConnectives("a < 5") == ["a < 5"]
    ensures IndexOf("//#if a < 5", "a < 5", 5) == 6
  {
    var text := "//#if a < 5";
    assert forall j :: !IsConnectiveAt("a < 5", j);
    assert NextConnective("a < 5", 0) == 5;
    assert text[6..11] == "a < 5";
    assert text[5..10] != "a < 5";
    OccursAtSlice(text, "a < 5", 6);
    OccursAtSlice(text, "a < 5", 5);
    IndexOfFirst(text, "a < 5", 5);
  }

  /** The operands of `a < 5` after trimming. */
  lemma Operands()
    ensures ToIntOrNull(Trim("a ")) == None
    ensures ToIntOrNull(Trim(" 5")) == Some(5)
  {
    assert TrimmedStart("a ", 0) == 0 && TrimmedEnd("a ", 0, 2) == 1;
    assert Trim("a ") == "a";
    assert TrimmedStart(" 5", 0) == 1 && TrimmedEnd(" 5", 1, 2) == 2;
    assert Trim(" 5") == "5";
  }

  /** The spans of the term `a < 5` found at 6. */
  lemma TermOperands()
    ensures TermSpans("a < 5", 0, 6) == [Span(6, 8, Identifier), Span(9, 11, Number)]
  {
    LessThanNumber();
    Operands();
    assert "a < 5"[0..2] == "a " && "a < 5"[3..5] == " 5";
  }

  /** The spans of the single term `a < 5`, found at 6. */
  lemma IfConditionSpans()
    ensures ConditionSpans("//#if a < 5", 0, ["a < 5"], 5) == [Span(6, 8, Identifier), Span(9, 11, Number)]
  {
    IfTermPosition();
    TermOperands();
    assert ["a < 5"][1..] == [];
  }

  /** `//#if a < 5` is a directive comment whose word is `if`. */
  lemma IfComment()
    ensures IsDirective("//#if a < 5", Some("//")) && Word("//#if a < 5", Some("//")) == "if"
  {
    assert StartsWith("//#if a < 5", "//");
    IfSegments();
  }

  /** `//#if a < 5` at offset 0 opens a block and highlights `a` as an
      identifier, `5` as a number and then the keyword with its sigil. */
  lemma IfWithCondition(states: seq<P.State>, lexer: string -> seq<Token>)
    ensures NextStates(states, "//#if a < 5", Some("//")) == [P.State.If] + states
    ensures AddedSpans(states, "//#if a < 5", 0, Some("//"), lexer)
         == [Span(6, 8, Identifier), Span(9, 11, Number), Span(2, 5, Directive)]
  {
    var text := "//#if a < 5";
    IfComment();
    IfSegments();
    IfTermPosition();
    IfOpensBlock(states, text, 0, Some("//"), lexer);
    IfConditionSpans();
  }

  /** `//#else` is a directive comment with the word `else` and no
      arguments. */
  lemma ElseComment()
    ensures IsDirective("//#else", Some("//")) && Segments("//#else", 2) == ["else"]
  {
    var text := "//#else";
    assert StartsWith(text, "//");
    assert text[3..] == "else";
  }

  /** `//#else` after an open IF replaces it by ELSE and highlights the
      keyword. */
  lemma ElseAfterIf(lexer: string -> seq<Token>)
    ensures NextStates([P.State.If], "//#else", Some("//")) == [P.State.Else]
    ensures AddedSpans([P.State.If], "//#else", 12, Some("//"), lexer) == [Span(14, 19, Directive)]
  {
    var text := "//#else";
    ElseComment();
    ElseReplacesHead([P.State.If], text, 12, Some("//"), lexer);
  }

  /** `//#endif` is a directive comment with the word `endif` and no
      arguments. */
  lemma EndIfComment()
    ensures IsDirective("//#endif", Some("//")) && Segments("//#endif", 2) == ["endif"]
  {
    var text := "//#endif";
    assert StartsWith(text, "//");
    assert text[3..] == "endif";
  }

  /** `//#endif` after ELSE closes the block and highlights the keyword. */
  lemma EndIfAfterElse(lexer: string -> seq<Token>)
    ensures NextStates([P.State.Else], "//#endif", Some("//")) == []
    ensures AddedSpans([P.State.Else], "//#endif", 20, Some("//"), lexer) == [Span(22, 28, Directive)]
  {
    var text := "//#endif";
    EndIfComment();
    EndIfRemovesHead([P.State.Else], text, 20, Some("//"), lexer);
  }

  /** The comments of a whole `if`/`else`/`endif` block. */
  function Block(): seq<Comment> {
    [Comment("//#if a < 5", 0), Comment("//#else", 12), Comment("//#endif", 20)]
  }

  /** After a whole `if`/`else`/`endif` block the deque is empty again. */
  lemma BalancedBlockCloses()
    ensures ScanStates([], Block(), Some("//")) == []
  {
    var lexer := (s: string) => [];
    var c0, c1, c2 := Comment("//#if a < 5", 0), Comment("//#else", 12), Comment("//#endif", 20);
    IfWithCondition([], lexer);
    ElseAfterIf(lexer);
    EndIfAfterElse(lexer);
    assert Block() == [c0] + ([c1] + ([c2] + []));
    ScanCons([], c0, [c1] + ([c2] + []), Some("//"), lexer,
             [Span(6, 8, Identifier), Span(9, 11, Number), Span(2, 5, Directive)], [P.State.If]);
    ScanCons([P.State.If], c1, [c2] + [], Some("//"), lexer, [Span(14, 19, Directive)], [P.State.Else]);
    ScanCons([P.State.Else], c2, [], Some("//"), lexer, [Span(22, 28, Directive)], []);
  }

  /** A whole `if`/`else`/`endif` block adds no error: only the two
      operands and the three keywords, in document order of the visits. */
  lemma BalancedBlockSpans(lexer: string -> seq<Token>)
    ensures ScanSpans([], Block(), Some("//"), lexer)
         == [Span(6, 8, Identifier), Span(9, 11, Number), Span(2, 5, Directive),
             Span(14, 19, Directive), Span(22, 28, Directive)]
  {
    var c0, c1, c2 := Comment("//#if a < 5", 0), Comment("//#else", 12), Comment("//#endif", 20);
    var ifSpans := [Span(6, 8, Identifier), Span(9, 11, Number), Span(2, 5, Directive)];
    IfWithCondition([], lexer);
    ElseAfterIf(lexer);
    EndIfAfterElse(lexer);
    assert Block() == [c0] + ([c1] + ([c2] + []));
    ScanCons([], c0, [c1] + ([c2] + []), Some("//"), lexer, ifSpans, [P.State.If]);
    ScanCons([P.State.If], c1, [c2] + [], Some("//"), lexer, [Span(14, 19, Directive)], [P.State.Else]);
    ScanCons([P.State.Else], c2, [], Some("//"), lexer, [Span(22, 28, Directive)], []);
    assert ScanSpans([], [], Some("//"), lexer) == [];
  }

  /** `//#endif` with nothing open is an error over the whole comment and
      leaves the deque empty. */
  lemma StrayEndIf(lexer: string -> seq<Token>)
    ensures NextStates([], "//#endif", Some("//")) == []
    ensures AddedSpans([], "//#endif", 7, Some("//"), lexer)
         == [Span(7, 15, Error(NoOpeningIf("endif")))]
  {
    var text := "//#endif";
    EndIfComment();
    EndIfRemovesHead([], text, 7, Some("//"), lexer);
  }

  /** A space after the sigil makes the directive word empty, so `//# if x`
      is an unknown directive `""` rather than an `#if`. */
  lemma SpaceAfterSigil(states: seq<P.State>, lexer: string -> seq<Token>)
    ensures NextStates(states, "//# if x", Some("//")) == states
    ensures AddedSpans(states, "//# if x", 0, Some("//"), lexer)
         == [Span(0, 8, Error(Unknown("")))]
  {
    var text := "//# if x";
    assert IsDirective(text, Some("//")) by {
      assert StartsWith(text, "//");
    }
    var body := text[3..];
    assert body == " if x";
    SplitAtRun(body, 0, 1);
    assert Word(text, Some("//")) == "";
    UnknownDirective(states, text, 0, Some("//"), lexer);
  }
}
