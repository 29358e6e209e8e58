/**
 * Properties of the line loop stated on `Run` and `LineStep`: how the end
 * marker patch rewrites a line, when comments get written, that answers are
 * read front to back, that output already written is never changed by later
 * lines, and what the loop writes when nothing is asked or nothing is answered.
 */
module LoopLaws {
  import opened Wrappers
  import opened Strings
  import opened Heuristics
  import opened Prompts
  import opened Formatting
  import opened Output
  import opened Annotator

  /** `rest` is what is left of `answers` after reading some of them from the front. */
  predicate Unread(rest: seq<string>, answers: seq<string>)
  {
    |rest| <= |answers| && rest == answers[|answers| - |rest|..]
  }

  lemma UnreadTrans(c: seq<string>, b: seq<string>, a: seq<string>)
    requires Unread(c, b) && Unread(b, a)
    ensures Unread(c, a)
  {
    assert a[|a| - |c|..] == a[|a| - |b|..][|b| - |c|..];
  }

  lemma AskUnread(answers: seq<string>)
    ensures Unread(Ask(answers).rest, answers)
  {
  }

  lemma FirstValidModeUnread(answers: seq<string>)
    requires FirstValidMode(answers).Some?
    ensures Unread(FirstValidMode(answers).value.rest, answers)
  {
  }

  /** The parameter prompts read answers only from the front. */
  lemma ParametersReplyUnread(answers: seq<string>)
    requires ParametersReply(answers).Some?
    ensures Unread(ParametersReply(answers).value.rest, answers)
  {
    var hasParams := Ask(answers);
    AskUnread(answers);
    if IsYes(hasParams.value) {
      var paramName := Ask(hasParams.rest);
      var paramDesc := Ask(paramName.rest);
      AskUnread(hasParams.rest);
      AskUnread(paramName.rest);
      FirstValidModeUnread(paramDesc.rest);
      UnreadTrans(paramDesc.rest, paramName.rest, hasParams.rest);
      UnreadTrans(paramDesc.rest, hasParams.rest, answers);
      UnreadTrans(FirstValidMode(paramDesc.rest).value.rest, paramDesc.rest, answers);
    }
  }

  /** The function-comment prompts read answers only from the front. */
  lemma FunctionCommentUnread(answers: seq<string>)
    requires FunctionComment(answers).Some?
    ensures Unread(FunctionComment(answers).value.rest, answers)
  {
    var answer := Ask(answers);
    AskUnread(answers);
    if IsYes(answer.value) {
      var funcName := Ask(answer.rest);
      var funcDesc := Ask(funcName.rest);
      AskUnread(answer.rest);
      AskUnread(funcName.rest);
      UnreadTrans(funcDesc.rest, funcName.rest, answer.rest);
      UnreadTrans(funcDesc.rest, answer.rest, answers);
      var funcParams := ParametersReply(funcDesc.rest).value;
      ParametersReplyUnread(funcDesc.rest);
      UnreadTrans(funcParams.rest, funcDesc.rest, answers);
      AskUnread(funcParams.rest);
      UnreadTrans(Ask(funcParams.rest).rest, funcParams.rest, answers);
    }
  }

  /** The comment before a line reads answers only from the front. */
  lemma AnnotationUnread(line: string, answers: seq<string>)
    requires Annotation(line, answers).Some?
    ensures Unread(Annotation(line, answers).value.rest, answers)
  {
    if IsLikelyFunctionStart(line) {
      FunctionCommentUnread(answers);
    } else if IsVariableDeclaration(line) {
      var answer := Ask(answers);
      AskUnread(answers);
      AskUnread(answer.rest);
      UnreadTrans(Ask(answer.rest).rest, answer.rest, answers);
    }
  }

  lemma EchoedLineUnread(line: string, previousLine: string, answers: seq<string>)
    ensures Unread(EchoedLine(line, previousLine, answers).rest, answers)
  {
    AskUnread(answers);
  }

  /** One iteration reads answers only from the front. */
  lemma LineStepUnread(previousLine: string, line: string, answers: seq<string>)
    requires LineStep(previousLine, line, answers).Some?
    ensures Unread(LineStep(previousLine, line, answers).value.rest, answers)
  {
    if !IsExistingComment(line) {
      var before := Annotation(line, answers).value;
      AnnotationUnread(line, answers);
      EchoedLineUnread(line, previousLine, before.rest);
      UnreadTrans(EchoedLine(line, previousLine, before.rest).rest, before.rest, answers);
    }
  }

  /** The whole loop reads the answers in order: what is left is a suffix of them. */
  lemma {:induction false} RunUnread(lines: seq<string>, answers: seq<string>)
    requires Run(lines, answers).Some?
    ensures Unread(Run(lines, answers).value.rest, answers)
    decreases |lines|
  {
    if lines != [] {
      var s := Run(lines[..|lines| - 1], answers).value;
      RunUnread(lines[..|lines| - 1], answers);
      LineStepUnread(s.previousLine, lines[|lines| - 1], s.rest);
      UnreadTrans(Run(lines, answers).value.rest, s.rest, answers);
    }
  }

  /**
   * The end-marker patch: given a non-empty name, a likely function end keeps
   * all but its last character, and the marker follows; the line's newline and
   * last character are overwritten.
   */
  lemma EndMarkerReplacesLastCharacter(line: string, previousLine: string, answers: seq<string>)
    requires FunctionEndShape(line, previousLine) && answers != [] && answers[0] != ""
    ensures |line| >= 1
    ensures EchoedLine(line, previousLine, answers) == Reply(line[..|line| - 1] + EndMarker(answers[0]), answers[1..])
  {
    SeekPatchKeepsEarlierOutput([], line + "\n", EndMarker(answers[0]));
    assert (line + "\n")[..|line| - 1] == line[..|line| - 1];
  }

  /** The line is copied verbatim exactly when it is no likely function end or no name is given. */
  lemma EchoedLineVerbatim(line: string, previousLine: string, answers: seq<string>)
    ensures EchoedLine(line, previousLine, answers).value == line + "\n" <==>
      !FunctionEndShape(line, previousLine) || Ask(answers).value == ""
  {
    if FunctionEndShape(line, previousLine) && Ask(answers).value != "" {
      EndMarkerReplacesLastCharacter(line, previousLine, answers);
      assert |EchoedLine(line, previousLine, answers).value| == |line| + |answers[0]| + 16;
    }
  }

  /** A closing brace alone on its line is lost entirely to the marker. */
  lemma LoneBraceIsReplaced(previousLine: string, functionName: string, more: seq<string>)
    requires !PreviousLooksLikeControl(previousLine) && functionName != ""
    ensures EchoedLine("}", previousLine, [functionName] + more) == Reply(EndMarker(functionName), more)
  {
    LoneBraceIsFunctionEnd(previousLine);
    EndMarkerReplacesLastCharacter("}", previousLine, [functionName] + more);
    assert ([functionName] + more)[1..] == more;
    assert "}"[..0] + EndMarker(functionName) == EndMarker(functionName);
  }

  lemma LoneBraceIsFunctionEnd(previousLine: string)
    requires !PreviousLooksLikeControl(previousLine)
    ensures FunctionEndShape("}", previousLine)
  {
  }

  /** A function header is written exactly when the first answer is yes (and the prompts end). */
  lemma FunctionCommentOnlyOnYes(answers: seq<string>)
    requires FunctionComment(answers).Some?
    ensures FunctionComment(answers).value.value != "" <==> IsYes(Ask(answers).value)
    ensures !IsYes(Ask(answers).value) ==> FunctionComment(answers).value.rest == Ask(answers).rest
  {
  }

  /** A parameter line is written exactly when the parameters answer is yes (and a valid mode comes). */
  lemma ParametersOnlyOnYes(answers: seq<string>)
    requires ParametersReply(answers).Some?
    ensures ParametersReply(answers).value.value != "" <==> IsYes(Ask(answers).value)
    ensures !IsYes(Ask(answers).value) ==> ParametersReply(answers).value.rest == Ask(answers).rest
  {
    var hasParams := Ask(answers);
    if IsYes(hasParams.value) {
      var paramName := Ask(hasParams.rest);
      var paramDesc := Ask(paramName.rest);
      var mode := FirstValidMode(paramDesc.rest).value;
      assert |ParameterLine(paramName.value, mode.value, paramDesc.value)| >= 2;
    }
  }

  /** A variable comment is written exactly when the first answer is yes. */
  lemma VariableCommentOnlyOnYes(answers: seq<string>)
    ensures VariableComment(answers).value != "" <==> IsYes(Ask(answers).value)
    ensures IsYes(Ask(answers).value) ==> StartsWith(VariableComment(answers).value, "    // ")
  {
  }

  /**
   * The function prompts never finish exactly when the comment answer and the
   * parameters answer are yes and no answer after the parameter's name and
   * description is a valid mode.
   */
  lemma FunctionCommentHangs(answers: seq<string>)
    ensures FunctionComment(answers).None? <==>
      var answer := Ask(answers);
      var hasParams := Ask(Ask(Ask(answer.rest).rest).rest);
      IsYes(answer.value) && IsYes(hasParams.value) &&
      forall j :: 0 <= j < |Ask(Ask(hasParams.rest).rest).rest| ==> !IsValidMode(Ask(Ask(hasParams.rest).rest).rest[j])
  {
  }

  /** Existing comments are copied as they are and read no answer. */
  lemma CommentLineVerbatim(previousLine: string, line: string, answers: seq<string>)
    requires IsExistingComment(line)
    ensures LineStep(previousLine, line, answers) == Some(Reply(line + "\n", answers))
  {
  }

  /** `previousLine` is always the last line processed, whatever branch it took. */
  lemma RunPreviousLine(lines: seq<string>, answers: seq<string>)
    requires Run(lines, answers).Some?
    ensures Run(lines, answers).value.previousLine == if lines == [] then "" else lines[|lines| - 1]
  {
  }

  /**
   * Output is only ever appended: running more lines leaves what the first
   * lines wrote in place (the seek back reaches only into the current line's
   * copy), and reads only answers the first lines left unread.
   */
  lemma {:induction false} RunPrefix(lines: seq<string>, more: seq<string>, answers: seq<string>)
    requires Run(lines + more, answers).Some?
    ensures Run(lines, answers).Some?
    ensures var s := Run(lines, answers).value;
            var t := Run(lines + more, answers).value;
            |s.written| <= |t.written| && t.written[..|s.written|] == s.written &&
            Unread(t.rest, s.rest)
    decreases |more|
  {
    if more == [] {
      assert lines + more == lines;
    } else {
      var init := more[..|more| - 1];
      var last := more[|more| - 1];
      assert lines + more == (lines + init) + [last];
      RunSnoc(lines + init, last, answers);
      RunPrefix(lines, init, answers);
      var s := Run(lines, answers).value;
      var m := Run(lines + init, answers).value;
      var t := Run(lines + more, answers).value;
      var step := LineStep(m.previousLine, last, m.rest).value;
      assert t.written == m.written + step.value && t.rest == step.rest;
      LineStepUnread(m.previousLine, last, m.rest);
      UnreadTrans(t.rest, m.rest, s.rest);
      assert t.written[..|s.written|] == m.written[..|s.written|];
    }
  }

  /** With no answers, one iteration copies the line and nothing else. */
  lemma LineStepWithoutAnswers(previousLine: string, line: string)
    ensures LineStep(previousLine, line, []) == Some(Reply(line + "\n", []))
  {
    assert !IsYes(Ask([]).value);
    assert Annotation(line, []) == Some(Reply("", []));
    assert EchoedLine(line, previousLine, []) == Reply(line + "\n", []);
    assert "" + (line + "\n") == line + "\n";
  }

  /** A file made only of comment lines is copied verbatim, and no answer is read. */
  lemma {:induction false} RunCommentsOnly(lines: seq<string>, answers: seq<string>)
    requires forall i :: 0 <= i < |lines| ==> IsExistingComment(lines[i])
    ensures Run(lines, answers) == Some(Session(Unlines(lines), if lines == [] then "" else lines[|lines| - 1], answers))
    decreases |lines|
  {
    if lines != [] {
      var init := lines[..|lines| - 1];
      var line := lines[|lines| - 1];
      assert init + [line] == lines;
      RunCommentsOnly(init, answers);
      RunSnoc(init, line, answers);
      CommentLineVerbatim(if init == [] then "" else init[|init| - 1], line, answers);
      UnlinesSnoc(init, line);
      AppendAssoc(Unlines(init), line, "\n");
    }
  }

  /** With no answers at all, every prompt reads an empty string and the file is copied verbatim. */
  lemma {:induction false} RunWithoutAnswers(lines: seq<string>)
    ensures Run(lines, []) == Some(Session(Unlines(lines), if lines == [] then "" else lines[|lines| - 1], []))
    decreases |lines|
  {
    if lines != [] {
      var init := lines[..|lines| - 1];
      var line := lines[|lines| - 1];
      assert init + [line] == lines;
      RunWithoutAnswers(init);
      RunSnoc(init, line, []);
      LineStepWithoutAnswers(if init == [] then "" else init[|init| - 1], line);
      UnlinesSnoc(init, line);
      AppendAssoc(Unlines(init), line, "\n");
    }
  }
}
