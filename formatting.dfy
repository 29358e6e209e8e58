/**
 * The function comment block written above a function the user chose to
 * document (CreateFunctionHeader) and the one-line parameter description it
 * may contain.
 */
module Formatting {
  import opened Strings
  import opened Prompts
  import opened Output

  /** The closing rule of the block: `// ` and 76 `=`, 79 characters. */
  const RuleLine: string := "// ============================================================================"

  /** `80 - 9 - |name|` equal signs; a negative count writes none. */
  function Padding(name: string): nat
  {
    if 80 - 9 - |name| > 0 then 80 - 9 - |name| else 0
  }

  /** The opening banner line of the block. */
  function Banner(name: string): string
  {
    "// ==== " + name + " " + Repeat('=', Padding(name))
  }

  /** The banner is the prefix, the name, a space and `=` up to column 80; a long name gets no `=`. */
  lemma BannerShape(name: string)
    ensures |Banner(name)| == if |name| <= 71 then 80 else |name| + 9
    ensures StartsWith(Banner(name), "// ==== " + name + " ")
    ensures forall i :: |name| + 9 <= i < |Banner(name)| ==> Banner(name)[i] == '='
  {
  }

  /** The opening of the block: two blank lines, the banner and the description. */
  function OpeningLines(name: string, description: string): seq<string>
  {
    ["", "", Banner(name), "//", "// " + description, "//"]
  }

  /** The Input section, present only when there are parameters. */
  function InputLines(parameters: string): seq<string>
  {
    if parameters != "" then ["// Input:", "//      " + parameters, "//"] else []
  }

  /** The Output section, present only when there is a return description. */
  function OutputLines(returnDesc: string): seq<string>
  {
    if returnDesc != "" then ["// Output:", "//      " + returnDesc, "//"] else []
  }

  /** The lines of the block, in the order CreateFunctionHeader writes them. */
  function FunctionHeaderLines(name: string, description: string, parameters: string, returnDesc: string): seq<string>
  {
    OpeningLines(name, description) + InputLines(parameters) + OutputLines(returnDesc) + [RuleLine, ""]
  }

  /**
   * After two blank lines, the banner and the description, the Input section
   * stands at line 6 exactly when there are parameters and the Output section
   * right before the closing rule exactly when there is a return description.
   */
  lemma HeaderSections(name: string, description: string, parameters: string, returnDesc: string)
    ensures var h := FunctionHeaderLines(name, description, parameters, returnDesc);
      |h| == 8 + (if parameters != "" then 3 else 0) + (if returnDesc != "" then 3 else 0) &&
      h[..6] == ["", "", Banner(name), "//", "// " + description, "//"] &&
      (h[6] == "// Input:" <==> parameters != "") &&
      (parameters != "" ==> h[7] == "//      " + parameters && h[8] == "//") &&
      (h[|h| - 5] == "// Output:" <==> returnDesc != "") &&
      (returnDesc != "" ==> h[|h| - 4] == "//      " + returnDesc && h[|h| - 3] == "//") &&
      h[|h| - 2] == RuleLine && h[|h| - 1] == ""
  {
  }

  /** The `funcParams` string: `name [MODE] -- description`. */
  function ParameterLine(paramName: string, mode: string, paramDesc: string): string
  {
    paramName + " [" + mode + "] -- " + paramDesc
  }

  /** For a given parameter name and valid modes, the line determines the mode and the description. */
  lemma {:induction false} ParameterLineDetermined(paramName: string, m1: string, d1: string, m2: string, d2: string)
    requires IsValidMode(m1) && IsValidMode(m2)
    requires ParameterLine(paramName, m1, d1) == ParameterLine(paramName, m2, d2)
    ensures m1 == m2 && d1 == d2
  {
    var n := |paramName| + 2;
    var s := ParameterLine(paramName, m1, d1);
    assert s[n..] == m1 + "] -- " + d1;
    assert s[n..] == m2 + "] -- " + d2;
    assert s[n] == m1[0] && s[n] == m2[0];
    assert s[n + 2] == (m1 + "] -- " + d1)[2] && s[n + 2] == (m2 + "] -- " + d2)[2];
    var k := n + |m1| + 5;
    assert s[k..] == d1 && s[k..] == d2;
  }

  /** Writing one more line onto a file that holds `start` followed by `lines`. */
  lemma WriteLineStep(start: string, t: string, lines: seq<string>, line: string)
    requires t == start + Unlines(lines)
    ensures t + (line + "\n") == start + Unlines(lines + [line])
  {
    UnlinesSnoc(lines, line);
  }

  /** Writing several more lines onto a file that holds `start` followed by `lines`. */
  lemma WriteLinesStep(start: string, t: string, lines: seq<string>, more: seq<string>)
    requires t == start + Unlines(lines)
    ensures t + Unlines(more) == start + Unlines(lines + more)
  {
    UnlinesAppend(lines, more);
  }

  /** Two single-line writes are one write of both lines; stated apart to keep the header proof small. */
  lemma AppendTwo(lines: seq<string>, a: string, b: string)
    ensures lines + [a] + [b] == lines + [a, b]
  {
  }

  /** The banner statements of CreateFunctionHeader: prefix, name, then the `=` loop. */
  method WriteBanner(outputFile: OutputFile, functionName: string)
    requires outputFile.Valid() && outputFile.AtEnd()
    modifies outputFile
    ensures outputFile.Valid() && outputFile.AtEnd()
    ensures outputFile.text == old(outputFile.text) + Unlines([Banner(functionName)])
  {
    ghost var start := outputFile.text;
    outputFile.Write("// ==== " + functionName + " ");

    // the banner is padded with `=` so that it ends at column 80
    var nameLength := |functionName|;
    var equalsNeeded := 80 - 9 - nameLength;
    var i := 0;
    while i < equalsNeeded
      invariant 0 <= i && (equalsNeeded >= 0 ==> i <= equalsNeeded) && (equalsNeeded < 0 ==> i == 0)
      invariant outputFile.Valid() && outputFile.AtEnd()
      invariant outputFile.text == start + ("// ==== " + functionName + " ") + Repeat('=', i)
      decreases equalsNeeded - i
    {
      outputFile.Write("=");
      i := i + 1;
    }
    assert i == Padding(functionName);
    outputFile.Write("\n");
    WriteLineStep(start, start, [], Banner(functionName));
  }

  /** The three statements that write an Input or an Output section. */
  method WriteSection(outputFile: OutputFile, heading: string, content: string)
    requires outputFile.Valid() && outputFile.AtEnd()
    modifies outputFile
    ensures outputFile.Valid() && outputFile.AtEnd()
    ensures outputFile.text == old(outputFile.text) + Unlines([heading, "//      " + content, "//"])
  {
    ghost var start := outputFile.text;
    WriteLineStep(start, start, [], heading);
    outputFile.Write(heading + "\n");
    WriteLineStep(start, outputFile.text, [heading], "//      " + content);
    outputFile.Write("//      " + content + "\n");
    WriteLineStep(start, outputFile.text, [heading, "//      " + content], "//");
    outputFile.Write("//" + "\n");
    assert [heading] + ["//      " + content] == [heading, "//      " + content];
    assert [heading, "//      " + content] + ["//"] == [heading, "//      " + content, "//"];
  }

  /** CreateFunctionHeader: writes the block at the end of the output file. */
  method CreateFunctionHeader(outputFile: OutputFile, functionName: string, description: string,
                              parameters: string, returnDesc: string)
    requires outputFile.Valid() && outputFile.AtEnd()
    modifies outputFile
    ensures outputFile.Valid() && outputFile.AtEnd()
    ensures outputFile.text ==
      old(outputFile.text) + Unlines(FunctionHeaderLines(functionName, description, parameters, returnDesc))
  {
    ghost var start := outputFile.text;
    assert Unlines(["", ""]) == "\n" + "\n";
    outputFile.Write("\n" + "\n");
    ghost var written: seq<string> := ["", ""];
    WriteLinesStep(start, outputFile.text, written, [Banner(functionName)]);
    WriteBanner(outputFile, functionName);
    written := written + [Banner(functionName)];

    WriteLineStep(start, outputFile.text, written, "//");
    outputFile.Write("//" + "\n");
    written := written + ["//"];
    WriteLineStep(start, outputFile.text, written, "// " + description);
    outputFile.Write("// " + description + "\n");
    written := written + ["// " + description];
    WriteLineStep(start, outputFile.text, written, "//");
    outputFile.Write("//" + "\n");
    written := written + ["//"];
    assert written == OpeningLines(functionName, description);

    if parameters != "" {
      WriteLinesStep(start, outputFile.text, written, InputLines(parameters));
      WriteSection(outputFile, "// Input:", parameters);
    } else {
      assert written + InputLines(parameters) == written;
    }
    written := written + InputLines(parameters);
    assert outputFile.text == start + Unlines(written);

    if returnDesc != "" {
      WriteLinesStep(start, outputFile.text, written, OutputLines(returnDesc));
      WriteSection(outputFile, "// Output:", returnDesc);
    } else {
      assert written + OutputLines(returnDesc) == written;
    }
    written := written + OutputLines(returnDesc);
    assert outputFile.text == start + Unlines(written);

    WriteLineStep(start, outputFile.text, written, RuleLine);
    outputFile.Write(RuleLine + "\n");
    WriteLineStep(start, outputFile.text, written + [RuleLine], "");
    assert "" + "\n" == "\n";
    outputFile.Write("\n");
    AppendTwo(written, RuleLine, "");
    assert written + [RuleLine, ""] == FunctionHeaderLines(functionName, description, parameters, returnDesc);
  }
}
