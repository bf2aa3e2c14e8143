/** The JVM string primitives the directive scanner relies on, written out
    character by character: the `\s+` split with limit 2, the `&&`/`||`
    split, `indexOf`, `trim`, `toIntOrNull` and upper-casing. Characters
    outside ASCII are not given any special meaning. */
module Text {
  import opened Wrappers

  /** The characters matched by `\s` in a pattern compiled without flags:
      space, tab, line feed, vertical tab, form feed, carriage return. */
  predicate IsRegexSpace(c: char) {
    c == ' ' || c == '\t' || c == '\n' || c == '\U{B}' || c == '\U{C}' || c == '\r'
  }

  /** The ASCII characters Kotlin's `Char.isWhitespace` accepts, which is
      what `trim()` removes: the `\s` set plus the separators U+001C..U+001F. */
  predicate IsTrimSpace(c: char) {
    IsRegexSpace(c) || ('\U{1C}' <= c <= '\U{1F}')
  }

  predicate StartsWith(s: string, prefix: string) {
    |prefix| <= |s| && s[..|prefix|] == prefix
  }

  // ---------------------------------------------------------------------
  // split("\\s+".toRegex(), limit = 2)
  // ---------------------------------------------------------------------

  /** The first index at or after `i` holding a `\s` character, or `|s|`. */
  function FirstSpace(s: string, i: nat): (k: nat)
    requires i <= |s|
    ensures i <= k <= |s|
    ensures k < |s| ==> IsRegexSpace(s[k])
    ensures forall j :: i <= j < k ==> !IsRegexSpace(s[j])
    decreases |s| - i
  {
    if i == |s| || IsRegexSpace(s[i]) then i else FirstSpace(s, i + 1)
  }

  /** The end of the run of `\s` characters that starts at `i`. */
  function SkipSpaces(s: string, i: nat): (k: nat)
    requires i <= |s|
    ensures i <= k <= |s|
    ensures k < |s| ==> !IsRegexSpace(s[k])
    ensures forall j :: i <= j < k ==> IsRegexSpace(s[j])
    decreases |s| - i
  {
    if i == |s| || !IsRegexSpace(s[i]) then i else SkipSpaces(s, i + 1)
  }

  /** Kotlin's `s.split(Regex("\\s+"), limit = 2)`: no match gives `[s]`;
      otherwise the text before the first run of whitespace and everything
      after that run, kept even when it is empty. */
  function SplitAtWhitespace(s: string): (r: seq<string>)
    ensures 1 <= |r| <= 2
    ensures forall i :: 0 <= i < |r[0]| ==> !IsRegexSpace(r[0][i])
    ensures |r| == 1 <==> forall i :: 0 <= i < |s| ==> !IsRegexSpace(s[i])
    ensures |r| == 1 ==> r[0] == s
    ensures |r| == 2 ==>
      && |r[0]| + |r[1]| < |s|
      && s[..|r[0]|] == r[0]
      && s[|s| - |r[1]|..] == r[1]
      && (forall i :: |r[0]| <= i < |s| - |r[1]| ==> IsRegexSpace(s[i]))
      && (r[1] == [] || !IsRegexSpace(r[1][0]))
  {
    var k := FirstSpace(s, 0);
    if k == |s| then [s] else [s[..k], s[SkipSpaces(s, k)..]]
  }

  /** The split is determined by the first run of whitespace: a word
      `s[..k]` without whitespace followed by the run `s[k..m]` splits into
      the word and everything after the run. */
  lemma SplitAtRun(s: string, k: nat, m: nat)
    requires k < m <= |s|
    requires forall j :: 0 <= j < k ==> !IsRegexSpace(s[j])
    requires forall j :: k <= j < m ==> IsRegexSpace(s[j])
    requires m < |s| ==> !IsRegexSpace(s[m])
    ensures SplitAtWhitespace(s) == [s[..k], s[m..]]
  {
    assert IsRegexSpace(s[k]);
    assert FirstSpace(s, 0) == k;
    assert SkipSpaces(s, k) == m;
  }

  // ---------------------------------------------------------------------
  // split(Pattern.compile("\\|\\||&&"))
  // ---------------------------------------------------------------------

  /** A logical connective `||` or `&&` starts at index `i`. */
  predicate IsConnectiveAt(s: string, i: int) {
    0 <= i && i + 1 < |s| && ((s[i] == '|' && s[i + 1] == '|') || (s[i] == '&' && s[i + 1] == '&'))
  }

  predicate HasConnective(s: string) {
    exists i :: 0 <= i < |s| && IsConnectiveAt(s, i)
  }

  /** The first index at or after `i` where a connective starts, or `|s|`. */
  function NextConnective(s: string, i: nat): (k: nat)
    requires i <= |s|
    ensures i <= k <= |s|
    ensures k < |s| ==> IsConnectiveAt(s, k)
    ensures forall j :: i <= j < k ==> !IsConnectiveAt(s, j)
    decreases |s| - i
  {
    if i == |s| || IsConnectiveAt(s, i) then i else NextConnective(s, i + 1)
  }

  /** `s` is `pieces[0]`, a connective, `pieces[1]`, a connective, ...,
      the last piece. */
  ghost predicate JoinedByConnectives(s: string, pieces: seq<string>)
    decreases |pieces|
  {
    |pieces| >= 1 &&
    if |pieces| == 1 then s == pieces[0]
    else
      && |pieces[0]| + 2 <= |s|
      && s[..|pieces[0]|] == pieces[0]
      && IsConnectiveAt(s, |pieces[0]|)
      && JoinedByConnectives(s[|pieces[0]| + 2..], pieces[1..])
  }

  /** Each connective between the pieces is the first one that starts at or
      after the beginning of its piece. */
  ghost predicate FirstConnectives(s: string, pieces: seq<string>)
    decreases |pieces|
  {
    || |pieces| <= 1
    || (&& |pieces[0]| + 2 <= |s|
        && (forall j :: 0 <= j < |pieces[0]| ==> !IsConnectiveAt(s, j))
        && FirstConnectives(s[|pieces[0]| + 2..], pieces[1..]))
  }

  function SplitConnectivesFrom(s: string, i: nat): (r: seq<string>)
    requires i <= |s|
    ensures JoinedByConnectives(s[i..], r) && FirstConnectives(s[i..], r)
    ensures forall j :: 0 <= j < |r| ==> !HasConnective(r[j])
    decreases |s| - i
  {
    var k := NextConnective(s, i);
    if k == |s| then
      assert forall j :: IsConnectiveAt(s[i..], j) ==> IsConnectiveAt(s, i + j);
      [s[i..]]
    else
      var rest := SplitConnectivesFrom(s, k + 2);
      assert s[i..][..k - i] == s[i..k];
      assert s[i..][k - i + 2..] == s[k + 2..];
      assert forall j :: IsConnectiveAt(s[i..k], j) ==> IsConnectiveAt(s, i + j);
      assert forall j :: IsConnectiveAt(s[i..], j) ==> IsConnectiveAt(s, i + j);
      [s[i..k]] + rest
  }

  /** Java's `Pattern.split` on `\|\||&&` (the connectives found left to
      right, without overlap, empty pieces kept at both ends): the pieces
      rejoin to `s`, each at the first connective after it, and none of them
      holds a connective. */
  function SplitConnectives(s: string): (r: seq<string>)
    ensures JoinedByConnectives(s, r) && FirstConnectives(s, r)
    ensures forall j :: 0 <= j < |r| ==> !HasConnective(r[j])
  {
    assert s[0..] == s;
    SplitConnectivesFrom(s, 0)
  }

  /** The pieces are determined by `s`: any split into pieces joined by
      first connectives, the last of which holds no connective, is the one
      `SplitConnectives` returns. */
  lemma {:induction false} SplitConnectivesUnique(s: string, pieces: seq<string>)
    requires JoinedByConnectives(s, pieces) && FirstConnectives(s, pieces)
    requires !HasConnective(pieces[|pieces| - 1])
    ensures pieces == SplitConnectives(s)
  {
    JoinedUnique(s, pieces, SplitConnectives(s));
  }

  /** In a split by first connectives whose last piece holds none, the
      first piece ends at the first connective of `s`, and there is a
      single piece exactly when `s` has no connective. */
  lemma FirstPieceEndsAtConnective(s: string, pieces: seq<string>)
    requires JoinedByConnectives(s, pieces) && FirstConnectives(s, pieces)
    requires !HasConnective(pieces[|pieces| - 1])
    ensures var k := NextConnective(s, 0);
      && (|pieces| == 1 <==> k == |s|)
      && (|pieces| > 1 ==> |pieces[0]| == k)
  {
    var k := NextConnective(s, 0);
    if |pieces| == 1 {
      assert s == pieces[|pieces| - 1];
    } else {
      assert IsConnectiveAt(s, |pieces[0]|);
    }
  }

  lemma {:induction false} JoinedUnique(s: string, a: seq<string>, b: seq<string>)
    requires JoinedByConnectives(s, a) && FirstConnectives(s, a) && !HasConnective(a[|a| - 1])
    requires JoinedByConnectives(s, b) && FirstConnectives(s, b) && !HasConnective(b[|b| - 1])
    ensures a == b
    decreases |s|
  {
    FirstPieceEndsAtConnective(s, a);
    FirstPieceEndsAtConnective(s, b);
    if NextConnective(s, 0) < |s| {
      var n := |a[0]|;
      assert a[|a| - 1] == a[1..][|a[1..]| - 1] && b[|b| - 1] == b[1..][|b[1..]| - 1];
      JoinedUnique(s[n + 2..], a[1..], b[1..]);
      assert a == [a[0]] + a[1..] && b == [b[0]] + b[1..];
    }
  }

  /** `a < b && c > 1` splits into its two comparisons, with the spaces
      around the connective kept. */
  lemma SplitTwoComparisons()
    ensures SplitConnectives("a < b && c > 1") == ["a < b ", " c > 1"]
  {
    var s := "a < b && c > 1";
    var pieces := ["a < b ", " c > 1"];
    assert s[..6] == pieces[0] && s[8..] == pieces[1];
    assert IsConnectiveAt(s, 6);
    assert forall j :: 0 <= j < 6 ==> !IsConnectiveAt(s, j);
    assert pieces[1..] == [" c > 1"];
    assert JoinedByConnectives(s, pieces) && FirstConnectives(s, pieces);
    assert forall j :: !IsConnectiveAt(" c > 1", j);
    SplitConnectivesUnique(s, pieces);
  }

  // ---------------------------------------------------------------------
  // indexOf(String, fromIndex)
  // ---------------------------------------------------------------------

  /** `sub` occurs in `s` starting at `i`, compared character by
      character as `indexOf` does. */
  predicate OccursAt(s: string, sub: string, i: int) {
    0 <= i && i + |sub| <= |s| && SameFrom(s, sub, i, 0)
  }

  /** The characters of `sub` from `k` on equal those of `s` from `i + k`. */
  predicate SameFrom(s: string, sub: string, i: nat, k: nat)
    requires i + |sub| <= |s| && k <= |sub|
    decreases |sub| - k
  {
    k == |sub| || (s[i + k] == sub[k] && SameFrom(s, sub, i, k + 1))
  }

  lemma {:induction false} SameFromSlice(s: string, sub: string, i: nat, k: nat)
    requires i + |sub| <= |s| && k <= |sub|
    ensures SameFrom(s, sub, i, k) <==> s[i + k..i + |sub|] == sub[k..]
    decreases |sub| - k
  {
    if k < |sub| {
      SameFromSlice(s, sub, i, k + 1);
      assert s[i + k..i + |sub|] == [s[i + k]] + s[i + k + 1..i + |sub|];
      assert sub[k..] == [sub[k]] + sub[k + 1..];
    }
  }

  /** An occurrence is exactly a slice of `s` equal to `sub`. */
  lemma OccursAtSlice(s: string, sub: string, i: int)
    ensures OccursAt(s, sub, i) <==> 0 <= i && i + |sub| <= |s| && s[i..i + |sub|] == sub
  {
    if 0 <= i && i + |sub| <= |s| {
      SameFromSlice(s, sub, i, 0);
    }
  }

  function IndexOfFrom(s: string, sub: string, i: nat): (r: int)
    requires i <= |s|
    decreases |s| - i
  {
    if OccursAt(s, sub, i) then i
    else if i == |s| then -1
    else IndexOfFrom(s, sub, i + 1)
  }

  /** The search from `i` returns the first occurrence at or after `i`, or
      -1 when there is none. */
  lemma {:induction false} IndexOfFromFirst(s: string, sub: string, i: nat)
    requires i <= |s|
    ensures var r := IndexOfFrom(s, sub, i);
      && (r == -1 || (i <= r && OccursAt(s, sub, r)))
      && (forall j :: i <= j && (r == -1 || j < r) ==> !OccursAt(s, sub, j))
    decreases |s| - i
  {
    if !OccursAt(s, sub, i) && i < |s| {
      IndexOfFromFirst(s, sub, i + 1);
    }
  }

  function Clamp(from: int, n: nat): (r: nat)
    ensures r <= n
  {
    if from < 0 then 0 else if from > n then n else from
  }

  /** `java.lang.String.indexOf(sub, from)`: `from` is clamped to
      `[0, |s|]`, and the result is the first occurrence at or after it,
      or -1. */
  function IndexOf(s: string, sub: string, from: int): (r: int) {
    IndexOfFrom(s, sub, Clamp(from, |s|))
  }

  /** `indexOf` returns the first occurrence at or after `from` (clamped
      to the string), or -1 exactly when there is none. */
  lemma IndexOfFirst(s: string, sub: string, from: int)
    ensures var r := IndexOf(s, sub, from);
      && (r == -1 || (from <= r && OccursAt(s, sub, r)) || (from > |s| && r == |s| && sub == []))
      && (r == -1 <==> forall j :: Clamp(from, |s|) <= j ==> !OccursAt(s, sub, j))
      && (r != -1 ==> forall j :: from <= j < r ==> !OccursAt(s, sub, j))
  {
    IndexOfFromFirst(s, sub, Clamp(from, |s|));
    assert forall j :: j > |s| ==> !OccursAt(s, sub, j);
  }

  // ---------------------------------------------------------------------
  // trim()
  // ---------------------------------------------------------------------

  /** The first index at or after `i` that `trim()` keeps, or `|s|`. */
  function TrimmedStart(s: string, i: nat): (k: nat)
    requires i <= |s|
    ensures i <= k <= |s|
    decreases |s| - i
  {
    if i == |s| || !IsTrimSpace(s[i]) then i else TrimmedStart(s, i + 1)
  }

  /** Everything `trim()` skips at the start is whitespace, and it stops
      at a character that is not. */
  lemma {:induction false} TrimmedStartSpaces(s: string, i: nat)
    requires i <= |s|
    ensures forall j :: i <= j < TrimmedStart(s, i) ==> IsTrimSpace(s[j])
    ensures TrimmedStart(s, i) < |s| ==> !IsTrimSpace(s[TrimmedStart(s, i)])
    decreases |s| - i
  {
    if i < |s| && IsTrimSpace(s[i]) {
      TrimmedStartSpaces(s, i + 1);
    }
  }

  /** The end of what `trim()` keeps of `s[lo..hi]`: the greatest index
      down to `lo` after a kept character. */
  function TrimmedEnd(s: string, lo: nat, hi: nat): (k: nat)
    requires lo <= hi <= |s|
    ensures lo <= k <= hi
    decreases hi
  {
    if hi == lo || !IsTrimSpace(s[hi - 1]) then hi else TrimmedEnd(s, lo, hi - 1)
  }

  /** Everything `trim()` drops at the end is whitespace, and it stops
      after a character that is not. */
  lemma {:induction false} TrimmedEndSpaces(s: string, lo: nat, hi: nat)
    requires lo <= hi <= |s|
    ensures forall j :: TrimmedEnd(s, lo, hi) <= j < hi ==> IsTrimSpace(s[j])
    ensures TrimmedEnd(s, lo, hi) > lo ==> !IsTrimSpace(s[TrimmedEnd(s, lo, hi) - 1])
    decreases hi
  {
    if hi > lo && IsTrimSpace(s[hi - 1]) {
      TrimmedEndSpaces(s, lo, hi - 1);
    }
  }

  /** Kotlin's `trim()`: `s` with its leading and trailing whitespace
      removed (see `TrimSlice`). */
  function Trim(s: string): (r: string)
    ensures |r| <= |s|
  {
    var i := TrimmedStart(s, 0);
    s[i..TrimmedEnd(s, i, |s|)]
  }

  /** What `trim()` keeps is the slice of `s` between its leading and
      trailing whitespace: it neither starts nor ends with whitespace, and
      everything it removes on either side is whitespace. */
  lemma TrimSlice(s: string)
    ensures var i := TrimmedStart(s, 0);
      var r := Trim(s);
      && i + |r| <= |s| && s[i..i + |r|] == r
      && (r == [] || (!IsTrimSpace(r[0]) && !IsTrimSpace(r[|r| - 1])))
      && (forall j :: 0 <= j < i ==> IsTrimSpace(s[j]))
      && (forall j :: i + |r| <= j < |s| ==> IsTrimSpace(s[j]))
  {
    var i := TrimmedStart(s, 0);
    TrimmedStartSpaces(s, 0);
    TrimmedEndSpaces(s, i, |s|);
  }

  // ---------------------------------------------------------------------
  // toIntOrNull() and toString() for 32-bit Int
  // ---------------------------------------------------------------------

  const IntMin: int := -0x8000_0000
  const IntMax: int := 0x7fff_ffff

  predicate IsDigit(c: char) { '0' <= c <= '9' }

  /** Every character of `s` is a decimal digit. */
  predicate AllDigits(s: string)
  {
    |s| == 0 || (AllDigits(s[..|s| - 1]) && IsDigit(s[|s| - 1]))
  }

  lemma {:induction false} DigitsAt(s: string)
    requires AllDigits(s)
    ensures forall i :: 0 <= i < |s| ==> IsDigit(s[i])
  {
    if |s| > 0 {
      DigitsAt(s[..|s| - 1]);
    }
  }

  /** The value of a string of decimal digits, most significant first. */
  function DigitsValue(s: string): (r: nat)
    requires AllDigits(s)
  {
    if s == [] then 0 else DigitsValue(s[..|s| - 1]) * 10 + (s[|s| - 1] as int - '0' as int)
  }

  /** `s` without its leading sign, if it has one. */
  function Unsigned(s: string): (d: string)
    ensures |d| == |s| || (|d| == |s| - 1 && (s[0] == '-' || s[0] == '+') && d == s[1..])
  {
    if |s| > 0 && (s[0] == '-' || s[0] == '+') then s[1..] else s
  }

  /** A decimal integer literal: an optional `+` or `-`, then at least one
      decimal digit (leading zeros allowed). */
  predicate IntLiteral(s: string) {
    |Unsigned(s)| >= 1 && AllDigits(Unsigned(s))
  }

  /** The value a literal denotes: its digits, negated after a `-`. */
  function LiteralValue(s: string): (r: int)
    requires IntLiteral(s)
  {
    if s[0] == '-' then -(DigitsValue(Unsigned(s)) as int) else DigitsValue(Unsigned(s))
  }

  /** Kotlin's `String.toIntOrNull()`: the value of the text exactly when
      it is a decimal literal whose value fits a 32-bit `Int`. The code
      rejects a first character below `'0'` other than a sign, and a lone
      sign. */
  function ToIntOrNull(s: string): (r: Option<int>) {
    if |s| == 0 then None
    else if s[0] < '0' then
      if |s| == 1 then None
      else if s[0] == '-' then
        if AllDigits(s[1..]) && DigitsValue(s[1..]) <= -IntMin then Some(-(DigitsValue(s[1..]) as int)) else None
      else if s[0] == '+' then
        if AllDigits(s[1..]) && DigitsValue(s[1..]) <= IntMax then Some(DigitsValue(s[1..])) else None
      else None
    else if AllDigits(s) && DigitsValue(s) <= IntMax then Some(DigitsValue(s))
    else None
  }

  /** `toIntOrNull` yields a value exactly for a decimal literal whose
      value fits a 32-bit `Int`, and then that value. */
  lemma ToIntOrNullValue(s: string)
    ensures ToIntOrNull(s).Some? <==> IntLiteral(s) && IntMin <= LiteralValue(s) <= IntMax
    ensures ToIntOrNull(s).Some? ==> ToIntOrNull(s).value == LiteralValue(s)
  {
    if |s| > 0 && AllDigits(s) {
      DigitsAt(s);
    }
  }

  /** The decimal digits of `n`, without leading zeros ("0" for zero). */
  function NatToText(n: nat): (r: string)
    ensures |r| >= 1 && AllDigits(r)
    ensures r[0] != '0' || n == 0
  {
    if n < 10 then
      var r := [('0' as int + n) as char];
      assert AllDigits(r[..0]);
      r
    else NatToText(n / 10) + [('0' as int + n % 10) as char]
  }

  /** `Int.toString()`: a minus sign for negative values, then the digits. */
  function IntToText(v: int): (r: string) {
    if v < 0 then "-" + NatToText(-v) else NatToText(v)
  }

  lemma {:induction false} DigitsValueOfNatToText(n: nat)
    ensures DigitsValue(NatToText(n)) == n
  {
    var r := NatToText(n);
    if n >= 10 {
      DigitsValueOfNatToText(n / 10);
      assert r[..|r| - 1] == NatToText(n / 10);
    }
  }

  /** `toIntOrNull` reads back every 32-bit value that `toString` prints. */
  lemma ToIntOrNullOfIntToText(v: int)
    requires IntMin <= v <= IntMax
    ensures ToIntOrNull(IntToText(v)) == Some(v)
  {
    var s := IntToText(v);
    if v < 0 {
      var d := NatToText(-v);
      DigitsValueOfNatToText(-v);
      assert s[0] == '-' && |s| > 1 && s[1..] == d;
      assert AllDigits(s[1..]) && DigitsValue(s[1..]) == -v;
    } else {
      DigitsValueOfNatToText(v);
      DigitsAt(s);
      assert '0' <= s[0] && AllDigits(s) && DigitsValue(s) == v;
    }
  }

  // ---------------------------------------------------------------------
  // toUpperCase()
  // ---------------------------------------------------------------------

  function UpperChar(c: char): (r: char) {
    if 'a' <= c <= 'z' then (c as int - 32) as char else c
  }

  /** Upper-casing of the ASCII letters; every other character is kept. */
  function ToUpper(s: string): (r: string)
    ensures |r| == |s|
    ensures forall i :: 0 <= i < |s| ==> r[i] == UpperChar(s[i])
  {
    if s == [] then [] else [UpperChar(s[0])] + ToUpper(s[1..])
  }
}
