/** The condition-term recogniser: what `find` of the pattern
    `(.+)(<=|>=|<|>)(.+)` returns for a term, written as the search the
    regex engine performs. The engine tries start positions left to right;
    at each one the greedy first group takes as much as it can and gives
    back one character at a time, and at every candidate end the operator
    alternatives are tried in the order `<=`, `>=`, `<`, `>`. */
module Condition {
  import opened Wrappers

  /** The characters `.` does not match when the pattern has no flags. */
  predicate IsLineTerminator(c: char) {
    c == '\n' || c == '\r' || c == '\U{85}' || c == '\U{2028}' || c == '\U{2029}'
  }

  predicate NoLineTerminator(s: string) {
    forall k :: 0 <= k < |s| ==> !IsLineTerminator(s[k])
  }

  /** The operator alternatives in the order the pattern lists them. */
  const Operators: seq<string> := ["<=", ">=", "<", ">"]

  /** A successful match, as index ranges within the term: group 1 is
      `[lhsStart, lhsEnd)`, the operator group is `op`, group 3 is
      `[rhsStart, rhsEnd)`. */
  datatype Relation = Relation(lhsStart: nat, lhsEnd: nat, op: string, rhsStart: nat, rhsEnd: nat)

  /** How far a run of `.` can reach from `i`: the first line terminator
      at or after `i`, or `|s|`. */
  function DotRunEnd(s: string, i: nat): (k: nat)
    requires i <= |s|
    ensures i <= k <= |s|
    ensures k < |s| ==> IsLineTerminator(s[k])
    decreases |s| - i
  {
    if i == |s| || IsLineTerminator(s[i]) then i else DotRunEnd(s, i + 1)
  }

  /** No line terminator lies before the end of the run. */
  lemma {:induction false} DotRunClear(s: string, i: nat)
    requires i <= |s|
    ensures forall j :: i <= j < DotRunEnd(s, i) ==> !IsLineTerminator(s[j])
    decreases |s| - i
  {
    if i < |s| && !IsLineTerminator(s[i]) {
      DotRunClear(s, i + 1);
    }
  }

  /** `op` is written at `j` and the `(.+)` after it can take at least one
      character. */
  predicate FitsAt(s: string, op: string, j: nat) {
    j + |op| < |s| && s[j..j + |op|] == op && !IsLineTerminator(s[j + |op|])
  }

  /** The two-character operator `c=` fits at `j`. */
  predicate FitsLong(s: string, c: char, j: nat) {
    j + 2 < |s| && s[j] == c && s[j + 1] == '=' && !IsLineTerminator(s[j + 2])
  }

  /** The one-character operator `c` fits at `j`. */
  predicate FitsShort(s: string, c: char, j: nat) {
    j + 1 < |s| && s[j] == c && !IsLineTerminator(s[j + 1])
  }

  /** The operator group and the third group tried at `j`: the first
      alternative, in pattern order, that fits. A two-character operator
      that fits always wins over its one-character prefix. */
  function OperatorAt(s: string, j: nat): (r: Option<string>)
    ensures r.Some? ==> j < |s| && (s[j] == '<' || s[j] == '>')
    ensures FitsLong(s, '<', j) ==> r == Some("<=")
    ensures FitsLong(s, '>', j) ==> r == Some(">=")
    ensures r.None? <==> !FitsShort(s, '<', j) && !FitsShort(s, '>', j)
  {
    if FitsLong(s, '<', j) then Some("<=")
    else if FitsLong(s, '>', j) then Some(">=")
    else if FitsShort(s, '<', j) then Some("<")
    else if FitsShort(s, '>', j) then Some(">")
    else None
  }

  /** An operator taken at `j` is one of the four and fits there. */
  lemma OperatorFits(s: string, j: nat)
    ensures OperatorAt(s, j).Some? ==> OperatorAt(s, j).value in Operators && FitsAt(s, OperatorAt(s, j).value, j)
  {
  }

  /** Group 1 tried as `s[i..j]`, then `s[i..j-1]`, ... down to one
      character: the first end at which an operator fits. */
  function Backtrack(s: string, i: nat, j: nat): (r: Option<Relation>)
    requires i <= |s| && i <= j <= DotRunEnd(s, i)
    ensures r.Some? ==>
      && r.value.lhsStart == i && i < r.value.lhsEnd <= j
      && OperatorAt(s, r.value.lhsEnd) == Some(r.value.op)
      && r.value.rhsStart == r.value.lhsEnd + |r.value.op|
      && r.value.rhsEnd == DotRunEnd(s, r.value.rhsStart)
    decreases j
  {
    if j == i then Option.None
    else
      match OperatorAt(s, j)
      case Some(op) => Some(Relation(i, j, op, j + |op|, DotRunEnd(s, j + |op|)))
      case None => Backtrack(s, i, j - 1)
  }

  /** Backtracking fails exactly when no candidate end has an operator. */
  lemma {:induction false} BacktrackFails(s: string, i: nat, j: nat)
    requires i <= |s| && i <= j <= DotRunEnd(s, i)
    ensures Backtrack(s, i, j).None? <==> forall k :: i < k <= j ==> OperatorAt(s, k).None?
    decreases j
  {
    if j > i && OperatorAt(s, j).None? {
      BacktrackFails(s, i, j - 1);
    }
  }

  /** When backtracking succeeds, no candidate end to the right of the one
      it returns has an operator. */
  lemma {:induction false} BacktrackRightmost(s: string, i: nat, j: nat)
    requires i <= |s| && i <= j <= DotRunEnd(s, i)
    requires Backtrack(s, i, j).Some?
    ensures forall k :: Backtrack(s, i, j).value.lhsEnd < k <= j ==> OperatorAt(s, k).None?
    decreases j
  {
    if OperatorAt(s, j).None? {
      BacktrackRightmost(s, i, j - 1);
    }
  }

  /** A match found by backtracking from start `i` has well-formed groups. */
  lemma BacktrackGroups(s: string, i: nat, j: nat)
    requires i <= |s| && i <= j <= DotRunEnd(s, i)
    requires Backtrack(s, i, j).Some?
    ensures GroupsOf(s, Backtrack(s, i, j).value)
  {
    var m := Backtrack(s, i, j).value;
    var e := m.rhsEnd;
    DotRunClear(s, i);
    DotRunClear(s, m.rhsStart);
    assert !IsLineTerminator(s[m.rhsStart]);
    var lhs := s[i..m.lhsEnd];
    forall k | 0 <= k < |lhs| ensures !IsLineTerminator(lhs[k]) {
      assert lhs[k] == s[i + k];
    }
    var rhs := s[m.rhsStart..e];
    forall k | 0 <= k < |rhs| ensures !IsLineTerminator(rhs[k]) {
      assert rhs[k] == s[m.rhsStart + k];
    }
  }

  /** The group ranges of `m` are ordered and lie within `s`. */
  predicate InBounds(s: string, m: Relation) {
    m.lhsStart < m.lhsEnd <= m.rhsStart <= m.rhsEnd <= |s|
  }

  /** The first start position, at or after `i`, from which the pattern
      matches. */
  function FindFrom(s: string, i: nat): (r: Option<Relation>)
    requires i <= |s|
    ensures r.Some? ==> i <= r.value.lhsStart && InBounds(s, r.value)
    decreases |s| - i
  {
    if i == |s| then Option.None
    else
      match Backtrack(s, i, DotRunEnd(s, i))
      case Some(m) => Some(m)
      case None => FindFrom(s, i + 1)
  }

  /** The three groups of `m` are consecutive non-empty slices of `s`,
      none crossing a line terminator, and the middle one is one of the
      four operators. */
  predicate GroupsOf(s: string, m: Relation) {
    && m.lhsStart < m.lhsEnd
    && m.rhsStart == m.lhsEnd + |m.op|
    && m.rhsStart < m.rhsEnd <= |s|
    && m.op in Operators
    && s[m.lhsEnd..m.rhsStart] == m.op
    && NoLineTerminator(s[m.lhsStart..m.lhsEnd])
    && NoLineTerminator(s[m.rhsStart..m.rhsEnd])
  }

  /** Whatever start position the search succeeds from, the match has
      well-formed groups. */
  lemma {:induction false} FindFromGroups(s: string, i: nat)
    requires i <= |s| && FindFrom(s, i).Some?
    ensures GroupsOf(s, FindFrom(s, i).value)
    decreases |s| - i
  {
    if Backtrack(s, i, DotRunEnd(s, i)).Some? {
      BacktrackGroups(s, i, DotRunEnd(s, i));
    } else {
      FindFromGroups(s, i + 1);
    }
  }

  /** `EXPR_PATTERN.find(term)`: a match, when there is one, is a
      slice of the term within its bounds. */
  function MatchCondition(s: string): (r: Option<Relation>)
    ensures r.Some? ==> InBounds(s, r.value)
  {
    FindFrom(s, 0)
  }

  /** A match splits a slice of the term into the pattern's three groups. */
  lemma MatchGroups(s: string)
    requires MatchCondition(s).Some?
    ensures GroupsOf(s, MatchCondition(s).value)
  {
    FindFromGroups(s, 0);
  }

  /** On a term without line terminators, no start position past 0 can
      succeed where start 0 failed. */
  lemma {:induction false} FindFromFails(s: string, i: nat)
    requires i <= |s| && NoLineTerminator(s)
    requires forall k :: 0 < k <= |s| ==> OperatorAt(s, k).None?
    ensures FindFrom(s, i).None?
    decreases |s| - i
  {
    if i < |s| {
      BacktrackFails(s, i, DotRunEnd(s, i));
      FindFromFails(s, i + 1);
    }
  }

  /** The greedy first group makes the match take the rightmost operator
      that leaves both sides non-empty: on a term without line terminators
      the match exists exactly when such a position exists, group 1 is
      everything before it, group 3 everything after the operator, and no
      position further right carries one. */
  lemma {:induction false} GreedyOperator(s: string)
    requires NoLineTerminator(s)
    ensures MatchCondition(s).Some? <==> exists j :: 0 < j < |s| && OperatorAt(s, j).Some?
    ensures MatchCondition(s).Some? ==>
      var m := MatchCondition(s).value;
      && m.lhsStart == 0 && m.rhsEnd == |s|
      && OperatorAt(s, m.lhsEnd) == Some(m.op)
      && forall j :: m.lhsEnd < j < |s| ==> OperatorAt(s, j).None?
  {
    if s == [] {
      return;
    }
    assert DotRunEnd(s, 0) == |s|;
    BacktrackFails(s, 0, |s|);
    assert OperatorAt(s, |s|).None?;
    if Backtrack(s, 0, |s|).Some? {
      BacktrackRightmost(s, 0, |s|);
      var m := Backtrack(s, 0, |s|).value;
      assert MatchCondition(s) == Some(m);
    } else {
      FindFromFails(s, 0);
    }
  }

  /** The match of a term without line terminators, given its rightmost
      operator position. */
  lemma RightmostMatch(s: string, j: nat, op: string)
    requires NoLineTerminator(s)
    requires 0 < j && OperatorAt(s, j) == Some(op)
    requires forall k :: j < k < |s| ==> OperatorAt(s, k).None?
    ensures MatchCondition(s) == Some(Relation(0, j, op, j + |op|, |s|))
  {
    GreedyOperator(s);
    var m := MatchCondition(s).value;
    assert m.lhsEnd == j;
  }

  /** `x <= 5` is read with the two-character operator: group 1 is "x ",
      group 3 is " 5". */
  lemma LessOrEqualPreferred()
    ensures MatchCondition("x <= 5") == Some(Relation(0, 2, "<=", 4, 6))
  {
    var s := "x <= 5";
    assert NoLineTerminator(s);
    assert s[2..4] == "<=";
    assert OperatorAt(s, 3).None? && OperatorAt(s, 4).None? && OperatorAt(s, 5).None?;
    RightmostMatch(s, 2, "<=");
  }

  /** When `<=` ends the term, nothing is left for group 3 after it, so the
      match falls back to `<` with "=" as the right-hand side. */
  lemma TrailingOperatorFallsBack()
    ensures MatchCondition("a<=") == Some(Relation(0, 1, "<", 2, 3))
  {
    var s := "a<=";
    assert NoLineTerminator(s);
    assert s[1..2] == "<";
    assert OperatorAt(s, 2).None?;
    RightmostMatch(s, 1, "<");
  }

  /** With two operators the rightmost one splits the term. */
  lemma RightmostOperatorWins()
    ensures MatchCondition("a<b<c") == Some(Relation(0, 3, "<", 4, 5))
  {
    var s := "a<b<c";
    assert NoLineTerminator(s);
    assert s[3..4] == "<";
    assert OperatorAt(s, 4).None?;
    RightmostMatch(s, 3, "<");
  }

  /** `.` does not match a line terminator, so on a term holding one the
      match is not the rightmost operator: in `a<b` LINE SEPARATOR `c>d`
      group 1 cannot reach past the separator, the match takes `<`, and
      group 3 is `b`, ending before it. */
  lemma LineTerminatorBoundsMatch()
    ensures MatchCondition("a<b\U{2028}c>d") == Some(Relation(0, 1, "<", 2, 3))
  {
    var s := "a<b\U{2028}c>d";
    assert DotRunEnd(s, 2) == 3 && DotRunEnd(s, 0) == 3;
    assert OperatorAt(s, 3).None? && OperatorAt(s, 2).None? && OperatorAt(s, 1) == Some("<");
  }
}
