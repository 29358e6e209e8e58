/**
 * The line loop of `main`: each input line is classified by the heuristics,
 * the user is asked whether to document it, generated comments are written
 * before it, the line itself is copied, and a likely function end may have its
 * last two characters overwritten by an end-of-function marker.
 *
 * `LineStep` and `Run` state on values what one iteration and the whole loop
 * write and which answers they read; `ProcessLines` is the loop itself over an
 * OutputFile, proved to write exactly `Run`'s text.
 */
module Annotator {
  import opened Wrappers
  import opened Strings
  import opened Heuristics
  import opened Prompts
  import opened Formatting
  import opened Output

  /** The text written after a function end when the user names the function. */
  function EndMarker(functionName: string): string
  {
    "  // end of \"" + functionName + "\"" + "\n" + "\n" + "\n"
  }

  /**
   * The `funcParams` answer: empty unless the user answers yes, then the
   * parameter's name, its description and a valid mode; `None` when no valid
   * mode ever comes.
   */
  function ParametersReply(answers: seq<string>): Option<Reply<string>>
  {
    var hasParams := Ask(answers);
    if IsYes(hasParams.value) then
      var paramName := Ask(hasParams.rest);
      var paramDesc := Ask(paramName.rest);
      match FirstValidMode(paramDesc.rest)
      case None => None
      case Some(mode) => Some(Reply(ParameterLine(paramName.value, mode.value, paramDesc.value), mode.rest))
    else Some(Reply("", hasParams.rest))
  }

  /** What the function-start branch writes before the line, and the answers it reads. */
  function FunctionComment(answers: seq<string>): Option<Reply<string>>
  {
    var answer := Ask(answers);
    if IsYes(answer.value) then
      var funcName := Ask(answer.rest);
      var funcDesc := Ask(funcName.rest);
      match ParametersReply(funcDesc.rest)
      case None => None
      case Some(funcParams) =>
        var funcReturn := Ask(funcParams.rest);
        Some(Reply(Unlines(FunctionHeaderLines(funcName.value, funcDesc.value, funcParams.value, funcReturn.value)),
                   funcReturn.rest))
    else Some(Reply("", answer.rest))
  }

  /** What the variable-declaration branch writes before the line. */
  function VariableComment(answers: seq<string>): Reply<string>
  {
    var answer := Ask(answers);
    if IsYes(answer.value) then
      var varComment := Ask(answer.rest);
      Reply("    // " + varComment.value + "\n", varComment.rest)
    else Reply("", answer.rest)
  }

  /** What is written before a non-comment line: a function header, a variable comment or nothing. */
  function Annotation(line: string, answers: seq<string>): Option<Reply<string>>
  {
    if IsLikelyFunctionStart(line) then FunctionComment(answers)
    else if IsVariableDeclaration(line) then Some(VariableComment(answers))
    else Some(Reply("", answers))
  }

  /**
   * The line as it ends up in the file: copied with its newline, then, for a
   * likely function end given a non-empty name, its last two characters
   * overwritten from two positions back by the end marker.
   */
  function EchoedLine(line: string, previousLine: string, answers: seq<string>): Reply<string>
  {
    if FunctionEndShape(line, previousLine) then
      var functionName := Ask(answers);
      if functionName.value != "" then
        Reply(Overwrite(line + "\n", |line + "\n"| - 2, EndMarker(functionName.value)), functionName.rest)
      else Reply(line + "\n", functionName.rest)
    else Reply(line + "\n", answers)
  }

  /** One iteration of the line loop; `None` when it never finishes. */
  function LineStep(previousLine: string, line: string, answers: seq<string>): Option<Reply<string>>
  {
    if IsExistingComment(line) then Some(Reply(line + "\n", answers))
    else
      match Annotation(line, answers)
      case None => None
      case Some(before) =>
        var echoed := EchoedLine(line, previousLine, before.rest);
        Some(Reply(before.value + echoed.value, echoed.rest))
  }

  /** The state of the loop after some lines: what it wrote, `previousLine` and the unread answers. */
  datatype Session = Session(written: string, previousLine: string, rest: seq<string>)

  /** The loop over `lines`; `None` when some iteration never finishes. */
  function Run(lines: seq<string>, answers: seq<string>): Option<Session>
    decreases |lines|
  {
    if lines == [] then Some(Session("", "", answers))
    else
      match Run(lines[..|lines| - 1], answers)
      case None => None
      case Some(s) =>
        var line := lines[|lines| - 1];
        match LineStep(s.previousLine, line, s.rest)
        case None => None
        case Some(step) => Some(Session(s.written + step.value, line, step.rest))
  }

  /** Overwriting the last two characters of the file only touches the chunk just written. */
  lemma SeekPatchKeepsEarlierOutput(earlier: string, chunk: string, marker: string)
    requires |chunk| >= 2 && |marker| >= 2
    ensures Overwrite(earlier + chunk, |earlier + chunk| - 2, marker) ==
            earlier + Overwrite(chunk, |chunk| - 2, marker)
    ensures Overwrite(chunk, |chunk| - 2, marker) == chunk[..|chunk| - 2] + marker
  {
    var t := earlier + chunk;
    assert t[..|t| - 2] == earlier + chunk[..|chunk| - 2];
  }

  /** main.cpp:389-433: the prompts for a function comment and the header they produce. */
  method WriteFunctionComment(outputFile: OutputFile, answers: seq<string>) returns (finished: bool, rest: seq<string>)
    requires outputFile.Valid() && outputFile.AtEnd()
    modifies outputFile
    ensures outputFile.Valid() && outputFile.AtEnd()
    ensures finished <==> FunctionComment(answers).Some?
    ensures finished ==> outputFile.text == old(outputFile.text) + FunctionComment(answers).value.value &&
                         rest == FunctionComment(answers).value.rest
  {
    var reply := Ask(answers);
    var answer := reply.value;
    rest := reply.rest;
    if answer == "y" || answer == "Y" {
      var funcName, funcDesc, funcParams, funcReturn := "", "", "", "";
      reply := Ask(rest);
      funcName, rest := reply.value, reply.rest;
      reply := Ask(rest);
      funcDesc, rest := reply.value, reply.rest;
      reply := Ask(rest);
      var hasParams := reply.value;
      rest := reply.rest;
      if hasParams == "y" || hasParams == "Y" {
        reply := Ask(rest);
        var paramName := reply.value;
        rest := reply.rest;
        reply := Ask(rest);
        var paramDesc := reply.value;
        rest := reply.rest;
        var paramMode;
        paramMode, rest := GetValidParameterMode(rest);
        if paramMode.None? {
          return false, [];
        }
        funcParams := paramName + " [" + paramMode.value + "] -- " + paramDesc;
      }
      reply := Ask(rest);
      funcReturn, rest := reply.value, reply.rest;
      CreateFunctionHeader(outputFile, funcName, funcDesc, funcParams, funcReturn);
    }
    finished := true;
  }

  /** main.cpp:446-460: the prompts for a variable comment and the comment line. */
  method WriteVariableComment(outputFile: OutputFile, answers: seq<string>) returns (rest: seq<string>)
    requires outputFile.Valid() && outputFile.AtEnd()
    modifies outputFile
    ensures outputFile.Valid() && outputFile.AtEnd()
    ensures outputFile.text == old(outputFile.text) + VariableComment(answers).value
    ensures rest == VariableComment(answers).rest
  {
    var reply := Ask(answers);
    var answer := reply.value;
    rest := reply.rest;
    if answer == "y" || answer == "Y" {
      reply := Ask(rest);
      var varComment := reply.value;
      rest := reply.rest;
      outputFile.Write("    // " + varComment + "\n");
    }
  }

  /** main.cpp:474-479: seek back two characters and write the end marker there. */
  method WriteEndMarker(outputFile: OutputFile, functionName: string)
    requires outputFile.Valid() && outputFile.AtEnd() && |outputFile.text| >= 2
    modifies outputFile
    ensures outputFile.Valid() && outputFile.AtEnd()
    ensures outputFile.text == Overwrite(old(outputFile.text), |old(outputFile.text)| - 2, EndMarker(functionName))
  {
    ghost var t := outputFile.text;
    outputFile.SeekBack(2);
    var first := "  // end of \"" + functionName + "\"" + "\n";
    outputFile.Write(first);
    OverwriteShape(t, |t| - 2, first);
    var second := "\n" + "\n";
    outputFile.Write(second);
    OverwriteThen(t, |t| - 2, first, second);
    assert first + second == EndMarker(functionName);
    OverwriteShape(t, |t| - 2, first + second);
  }

  /** main.cpp:464-480: copy the line, then name a likely function end. */
  method WriteLine(outputFile: OutputFile, currentLine: string, previousLine: string, answers: seq<string>)
    returns (rest: seq<string>)
    requires outputFile.Valid() && outputFile.AtEnd()
    modifies outputFile
    ensures outputFile.Valid() && outputFile.AtEnd()
    ensures outputFile.text == old(outputFile.text) + EchoedLine(currentLine, previousLine, answers).value
    ensures rest == EchoedLine(currentLine, previousLine, answers).rest
  {
    ghost var earlier := outputFile.text;
    outputFile.Write(currentLine + "\n");
    rest := answers;
    var isEnd := IsLikelyFunctionEnd(currentLine, previousLine);
    if isEnd {
      var reply := Ask(rest);
      var functionName := reply.value;
      rest := reply.rest;
      if functionName != "" {
        WriteEndMarker(outputFile, functionName);
        SeekPatchKeepsEarlierOutput(earlier, currentLine + "\n", EndMarker(functionName));
      }
    }
  }

  /** One pass of the loop body, main.cpp:378-482. */
  method ProcessLine(outputFile: OutputFile, previousLine: string, currentLine: string, answers: seq<string>)
    returns (finished: bool, rest: seq<string>)
    requires outputFile.Valid() && outputFile.AtEnd()
    modifies outputFile
    ensures finished <==> LineStep(previousLine, currentLine, answers).Some?
    ensures finished ==> outputFile.Valid() && outputFile.AtEnd() &&
                         outputFile.text == old(outputFile.text) + LineStep(previousLine, currentLine, answers).value.value &&
                         rest == LineStep(previousLine, currentLine, answers).value.rest
  {
    // a comment line is copied and nothing is asked
    if IsExistingComment(currentLine) {
      outputFile.Write(currentLine + "\n");
      return true, answers;
    }

    ghost var before := outputFile.text;
    rest := answers;
    if IsLikelyFunctionStart(currentLine) {
      var ok;
      ok, rest := WriteFunctionComment(outputFile, rest);
      if !ok {
        return false, [];
      }
    } else if IsVariableDeclaration(currentLine) {
      rest := WriteVariableComment(outputFile, rest);
    }
    ghost var ann := Annotation(currentLine, answers).value;
    ghost var echoed := EchoedLine(currentLine, previousLine, ann.rest);
    assert outputFile.text == before + ann.value && rest == ann.rest;
    rest := WriteLine(outputFile, currentLine, previousLine, rest);
    assert LineStep(previousLine, currentLine, answers) == Some(Reply(ann.value + echoed.value, echoed.rest));
    AppendAssoc(before, ann.value, echoed.value);
    finished := true;
  }

  /**
   * The line loop, main.cpp:372-483. It returns `finished == false` where
   * the program would wait forever for a valid parameter mode.
   */
  method ProcessLines(lines: seq<string>, answers: seq<string>, outputFile: OutputFile)
    returns (finished: bool, rest: seq<string>)
    requires outputFile.Valid() && outputFile.AtEnd()
    modifies outputFile
    ensures finished <==> Run(lines, answers).Some?
    ensures finished ==> outputFile.Valid() && outputFile.AtEnd() &&
                         outputFile.text == old(outputFile.text) + Run(lines, answers).value.written &&
                         rest == Run(lines, answers).value.rest
  {
    ghost var start := outputFile.text;
    ghost var written := "";
    var previousLine := "";
    rest := answers;
    var i := 0;
    assert lines[..0] == [];
    while i < |lines|
      invariant 0 <= i <= |lines|
      invariant outputFile.Valid() && outputFile.AtEnd()
      invariant outputFile.text == start + written
      invariant Run(lines[..i], answers) == Some(Session(written, previousLine, rest))
    {
      var currentLine := lines[i];
      ghost var step := LineStep(previousLine, currentLine, rest);
      assert lines[..i + 1] == lines[..i] + [currentLine];
      RunSnoc(lines[..i], currentLine, answers);
      var ok;
      ok, rest := ProcessLine(outputFile, previousLine, currentLine, rest);
      if !ok {
        RunStaysStuck(lines, answers, i + 1);
        return false, [];
      }
      AppendAssoc(start, written, step.value.value);
      written := written + step.value.value;
      previousLine := currentLine;
      i := i + 1;
    }
    assert lines[..i] == lines;
    finished := true;
  }

  /** The loop over one more line: the loop over the others, then one iteration from its session. */
  lemma RunSnoc(init: seq<string>, line: string, answers: seq<string>)
    ensures Run(init + [line], answers) ==
      match Run(init, answers)
      case None => None
      case Some(s) =>
        match LineStep(s.previousLine, line, s.rest)
        case None => None
        case Some(step) => Some(Session(s.written + step.value, line, step.rest))
  {
    assert (init + [line])[..|init|] == init;
  }

  /** Once an iteration never finishes, neither does the loop. */
  lemma {:induction false} RunStaysStuck(lines: seq<string>, answers: seq<string>, k: nat)
    requires k <= |lines| && Run(lines[..k], answers).None?
    ensures Run(lines, answers).None?
    decreases |lines| - k
  {
    if k < |lines| {
      assert lines[..k + 1][..k] == lines[..k];
      RunStaysStuck(lines, answers, k + 1);
    } else {
      assert lines[..k] == lines;
    }
  }
}
