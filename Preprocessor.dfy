/** The constants and enumerations the directive scanner is built on:
    the nesting state kept per open block, the directive kinds with their
    keywords, and the allow-list of file types the overlay runs on. */
module Preprocessor {
  import opened Wrappers
  import Text

  /** File type names (upper-cased) the preprocessor overlay handles. */
  const AllowedTypes: seq<string> := ["JAVA"]

  /** The state of one open conditional block. The scanner never pushes
      `None`; it exists as a value of the enumeration only. */
  datatype State = None | If | Else

  /** The four directives, each written as a keyword after `#`. */
  datatype Directive = If | IfDef | Else | EndIf

  function Keyword(d: Directive): (w: string)
    ensures |w| >= 2
  {
    match d
    case If => "if"
    case IfDef => "ifdef"
    case Else => "else"
    case EndIf => "endif"
  }

  /** The directive a word names, by exact, case-sensitive comparison. */
  function ParseDirective(word: string): (r: Option<Directive>)
    ensures r.Some? ==> Keyword(r.value) == word
  {
    if word == "if" then Some(Directive.If)
    else if word == "ifdef" then Some(IfDef)
    else if word == "else" then Some(Directive.Else)
    else if word == "endif" then Some(EndIf)
    else Option.None
  }

  /** Every directive is recognised from its own keyword, so the keywords
      are pairwise distinct and the dispatch covers all four kinds. */
  lemma ParseKeyword(d: Directive)
    ensures ParseDirective(Keyword(d)) == Some(d)
  {
    match d
    case If =>
    case IfDef =>
    case Else =>
    case EndIf =>
  }

  /** A word is a directive exactly when it is one of the four keywords. */
  lemma ParseDirectiveExactly(word: string)
    ensures ParseDirective(word).Some? <==> word in {"if", "ifdef", "else", "endif"}
  {
  }

  /** `suitableForFile`: the file type's name, upper-cased, is on the
      allow-list. It depends on the name alone. */
  function SuitableForFile(typeName: string): (r: bool) {
    Text.ToUpper(typeName) in AllowedTypes
  }

  /** The overlay runs exactly on file types named "java" in any mix of
      letter case. */
  lemma {:induction false} SuitableExactlyForJava(typeName: string)
    ensures SuitableForFile(typeName) <==>
      |typeName| == 4 && forall i :: 0 <= i < 4 ==> typeName[i] == "JAVA"[i] || typeName[i] == "java"[i]
  {
    var u := Text.ToUpper(typeName);
    if SuitableForFile(typeName) {
      assert u == "JAVA";
      forall i | 0 <= i < 4 ensures typeName[i] == "JAVA"[i] || typeName[i] == "java"[i] {
        assert Text.UpperChar(typeName[i]) == "JAVA"[i];
      }
    }
    if |typeName| == 4 && forall i :: 0 <= i < 4 ==> typeName[i] == "JAVA"[i] || typeName[i] == "java"[i] {
      assert u == "JAVA";
    }
  }
}
