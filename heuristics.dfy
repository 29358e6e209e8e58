/**
 * The textual tests that decide, line by line, what the comment generator does:
 * the existing-comment test and the variable-declaration test written inline in
 * `main`, and the two heuristics IsLikelyFunctionStart and IsLikelyFunctionEnd.
 * Every test is plain substring search; nothing here tokenizes.
 */
module Heuristics {
  import opened Wrappers
  import opened Strings

  /** The line loop copies a line verbatim when it begins with a line-comment or block-comment opener. */
  function IsExistingComment(line: string): (r: bool)
    ensures r <==> StartsWith(line, "//") || StartsWith(line, "/*")
  {
    FindFirstAtZero(line, "//");
    FindFirstAtZero(line, "/*");
    FindFirst(line, "//") == Some(0) || FindFirst(line, "/*") == Some(0)
  }

  /** A comment that does not start in column 0 is not recognised as one. */
  lemma IndentedCommentIsNotComment(line: string)
    requires line != [] && IsBlank(line[0])
    ensures !IsExistingComment(line)
  {
  }

  /** Heuristic for a function definition header. */
  function IsLikelyFunctionStart(line: string): (r: bool)
    ensures r <==>
      Occurs(line, "(") && Occurs(line, ")") && !Occurs(line, ";") &&
      !Occurs(line, "if ") && !Occurs(line, "while ") &&
      !Occurs(line, "for ") && !Occurs(line, "switch ") &&
      !Occurs(line, "cout") && !Occurs(line, "cin")
  {
    if !Contains(line, "(") || !Contains(line, ")") then false
    else if Contains(line, ";") then false
    else if Contains(line, "if ") || Contains(line, "while ") ||
            Contains(line, "for ") || Contains(line, "switch ") then false
    else if Contains(line, "cout") || Contains(line, "cin") then false
    else true
  }

  /** The inline variable-declaration test of the line loop. */
  function IsVariableDeclaration(line: string): (r: bool)
    ensures r <==>
      (Occurs(line, "int ") || Occurs(line, "string ") || Occurs(line, "double ") ||
       Occurs(line, "float ") || Occurs(line, "char ") || Occurs(line, "bool ")) &&
      Occurs(line, ";") && !Occurs(line, "(")
  {
    (Contains(line, "int ") || Contains(line, "string ") || Contains(line, "double ") ||
     Contains(line, "float ") || Contains(line, "char ") || Contains(line, "bool ")) &&
    Contains(line, ";") && !Contains(line, "(")
  }

  /** A function start needs a `(`, a declaration forbids one: the two tests never both hold. */
  lemma StartAndDeclarationDisjoint(line: string)
    ensures !(IsLikelyFunctionStart(line) && IsVariableDeclaration(line))
  {
  }

  /** The previous-line test of IsLikelyFunctionEnd (no trailing space here). */
  predicate PreviousLooksLikeControl(previousLine: string)
  {
    Contains(previousLine, "if") || Contains(previousLine, "else") ||
    Contains(previousLine, "for") || Contains(previousLine, "while") ||
    Contains(previousLine, "{")
  }

  /** A `}` in the line is not blank, so stripping leading blanks never empties the line. */
  lemma BraceSurvivesTrim(line: string)
    requires Occurs(line, "}")
    ensures TrimLeft(line) != [] && |line| - |TrimLeft(line)| < |line|
  {
    var i: nat :| OccursAt(line, "}", i);
    OccursCharAt(line, '}', i);
    TrimLeftKeeps(line, i);
  }

  /** What IsLikelyFunctionEnd computes, stated on values. */
  function FunctionEndShape(line: string, previousLine: string): (r: bool)
    ensures r ==> TrimLeft(line) != [] && |TrimLeft(line)| <= 3 && TrimLeft(line)[0] == '}'
  {
    Contains(line, "}") && !Contains(line, "{") && !PreviousLooksLikeControl(previousLine) &&
    (var trimmed := TrimLeft(line);
     BraceSurvivesTrim(line);
     |trimmed| <= 3 && trimmed[0] == '}')
  }

  /** Only blanks precede index `k`, where a `}` stands at most two characters before the end. */
  predicate BraceAfterBlanks(line: string, k: nat)
  {
    k < |line| && |line| - k <= 3 && line[k] == '}' &&
    forall i :: 0 <= i < k ==> IsBlank(line[i])
  }

  /**
   * The function-end heuristic characterised without TrimLeft: the line holds a
   * `}` and no `{`, the previous line holds none of the control words or `{`, and
   * after some run of blanks the line is a `}` followed by at most two characters.
   */
  lemma FunctionEndCharacterised(line: string, previousLine: string)
    ensures FunctionEndShape(line, previousLine) <==>
      Occurs(line, "}") && !Occurs(line, "{") &&
      !Occurs(previousLine, "if") && !Occurs(previousLine, "else") &&
      !Occurs(previousLine, "for") && !Occurs(previousLine, "while") &&
      !Occurs(previousLine, "{") &&
      exists k: nat :: BraceAfterBlanks(line, k)
  {
    var t := TrimLeft(line);
    var k := |line| - |t|;
    if FunctionEndShape(line, previousLine) {
      assert line[k] == t[0];
      assert BraceAfterBlanks(line, k);
    }
    if exists k': nat :: BraceAfterBlanks(line, k') {
      var k': nat :| BraceAfterBlanks(line, k');
      TrimLeftKeeps(line, k');
      assert k == k';
      assert OccursAt(line, "}", k');
    }
  }

  /**
   * IsLikelyFunctionEnd: the brace tests, the previous-line test, then a loop
   * that strips leading spaces and tabs before looking at the remainder.
   */
  method IsLikelyFunctionEnd(line: string, previousLine: string) returns (r: bool)
    ensures r == FunctionEndShape(line, previousLine)
  {
    if !Contains(line, "}") || Contains(line, "{") {
      return false;
    }
    if Contains(previousLine, "if") || Contains(previousLine, "else") ||
       Contains(previousLine, "for") || Contains(previousLine, "while") ||
       Contains(previousLine, "{") {
      return false;
    }
    var trimmed := line;
    while trimmed != [] && (trimmed[0] == ' ' || trimmed[0] == '\t')
      invariant TrimLeft(trimmed) == TrimLeft(line)
    {
      trimmed := trimmed[1..];
    }
    BraceSurvivesTrim(line);
    r := |trimmed| <= 3 && trimmed[0] == '}';
  }
}
