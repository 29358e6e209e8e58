# codeCommentGenerator: the line annotator, modelled in Dafny

codeCommentGenerator copies a C++ source file line by line into a new file. It
asks the user whether to put comments in front of lines that look like function
definitions or variable declarations. For a function it writes a framed header
block with a banner, a description, an optional Input section with one
`name [MODE] -- description` parameter line, an optional Output section and a
closing rule. After a closing brace that looks like a function end, it offers to
append an `// end of "NAME"` marker. It places the marker by seeking back two
characters in the output stream, so the marker overwrites the line's newline and
its last character.

The model covers the following parts of `main.cpp`:

- **Line tests** (`heuristics.dfy`):
  - the existing-comment test;
  - `IsLikelyFunctionStart`;
  - the variable-declaration test;
  - `IsLikelyFunctionEnd`.

  `IsLikelyFunctionStart` and the variable-declaration test are functions on
  strings with an if-and-only-if contract over substring occurrence. The
  existing-comment test has one over prefixes (`StartsWith`).
  `IsLikelyFunctionEnd` runs a loop that strips blanks, so it is a method,
  proved equal to the specification function `FunctionEndShape`. The lemma
  `FunctionEndCharacterised` gives its if-and-only-if.
- **Prompts** (`prompts.dfy`): the console input is a sequence of answers. Every
  `getline(cin, …)` reads the next answer. Once the answers run out it reads the
  empty string, because every answer variable read inside the line loop is
  freshly declared. In `GetValidParameterMode` nothing read after the end
  matters, since that loop never ends.
  `GetValidParameterMode` is the re-prompting loop, proved to settle on the first
  exactly valid mode.
- **Output file** (`output.dfy`): a class with the text written so far and a put
  position. `Write` overwrites from the position and extends the file. `SeekBack`
  moves the position backwards, as `seekp(-n, ios::cur)` does.
- **Formatters** (`formatting.dfy`):
  - `CreateFunctionHeader` is a method over the output file. It is proved to
    append exactly the lines of `FunctionHeaderLines`, whose shape is then proved
    separately.
  - `ParameterLine` is the `funcParams` string.
- **Path expansion** (`paths.dfy`): `ExpandPath`, with the value of `HOME` passed
  in as an `Option`.
- **The line loop** (`annotator.dfy`):
  - `ProcessLines` is the `while (getline(inputFile, currentLine))` loop, with
    `previousLine` and the seek-back patch.
  - It is proved to write exactly the text of `Run`, which describes the loop on
    values.
  - `Run` returns `None` exactly where the program would wait forever for a valid
    parameter mode on an exhausted input.
- **Loop laws** (`loop_laws.dfy`): properties of `Run` and of one iteration,
  `LineStep`:
  - answers are read front to back;
  - earlier output is never changed by later lines;
  - comment-only files, and runs with no answers at all, are copied verbatim;
  - what the end marker does to a line, including a lone `}` that loses its brace.

The model follows main.cpp as written:

- **No brace counter.** A function end is decided only by the line shape that
  `IsLikelyFunctionEnd` tests (main.cpp:279-306): the line itself and the
  previous line. Nesting depth plays no part.
- **Exclusions only.** `cout` and `cin` appear only in the function-start
  exclusion (main.cpp:259-260). The control keywords appear there with a
  trailing space (main.cpp:250-253), and without one in the previous-line test
  of `IsLikelyFunctionEnd` (main.cpp:288-291). No line gets a branch of its own
  for holding them: it goes on to the variable test and is copied like any
  other line.
- **Keywords with a trailing space.** The function-start exclusion tests each
  keyword followed by a space (`"if "`, `"while "`, `"for "`, `"switch "`). The
  previous-line test of `IsLikelyFunctionEnd` tests `if`, `else`, `for`, `while`
  and `{` with nothing after them (main.cpp:288-292).
- **A lone `}` loses its brace.** For a closing brace alone on its line, the
  seek back of two characters (main.cpp:476) overwrites the brace itself. The
  line becomes `  // end of "NAME"`, not `}  // end of "NAME"`. The repository's
  own sample output shows this (test4.cpp:46-49). `EndMarkerReplacesLastCharacter`
  states the general rule and `LoneBraceIsReplaced` states this case.

## Model

| member | source | states |
|---|---|---|
| Strings.FindFirst | main.cpp:239-260 | `string::find`: when it answers an index, the pattern occurs there and at no earlier index; when it answers none, the pattern occurs nowhere |
| Strings.Contains | main.cpp:239 | `find(...) != npos` holds exactly when the pattern occurs somewhere in the line |
| Strings.FindFirstAtZero | main.cpp:379 | `find(p) == 0` holds exactly when the line starts with `p` |
| Strings.TrimLeft | main.cpp:298-302 | the leading-blank strip: the result is a suffix of the line, everything removed is a space or a tab, and the result does not start with one |
| Heuristics.IsExistingComment | main.cpp:379 | a line is copied as an existing comment exactly when it starts with `//` or `/*` at column 0 |
| Heuristics.IndentedCommentIsNotComment | main.cpp:379 | a comment preceded by a blank is not treated as an existing comment |
| Heuristics.IsLikelyFunctionStart | main.cpp:236-266 | true exactly when the line holds `(` and `)`, holds no `;`, contains none of `if `, `while `, `for `, `switch `, and contains neither `cout` nor `cin` |
| Heuristics.IsVariableDeclaration | main.cpp:437-444 | true exactly when one of `int `, `string `, `double `, `float `, `char `, `bool ` occurs, a `;` occurs and no `(` occurs |
| Heuristics.StartAndDeclarationDisjoint | main.cpp:387-444 | no line passes both the function-start and the variable-declaration test, so the `else if` never hides a declaration that is also a start |
| Heuristics.BraceSurvivesTrim | main.cpp:298-305 | a line holding `}` never trims to the empty string, so `trimmed[0]` is always defined |
| Heuristics.PreviousLooksLikeControl | main.cpp:288-295 | the previous-line test: it holds when the previous line contains `if`, `else`, `for`, `while` or `{`; characterised by `FunctionEndCharacterised` |
| Heuristics.FunctionEndShape | main.cpp:279-306 | a likely function end trims to a non-empty remainder of at most 3 characters that starts with `}` |
| Heuristics.FunctionEndCharacterised | main.cpp:279-306 | a line is a likely function end exactly when it holds `}` and no `{`, the previous line holds none of `if`, `else`, `for`, `while`, `{`, and after leading blanks comes a `}` at most two characters before the end |
| Heuristics.IsLikelyFunctionEnd | main.cpp:279-306 | the strip-blanks loop computes exactly `FunctionEndShape` |
| Prompts.Ask | main.cpp:393 | `getline(cin, s)` yields the next answer and consumes it, or the empty string once the answers are exhausted |
| Prompts.IsYes | main.cpp:395 | only the exact answers `y` and `Y` are yes; used by `FunctionCommentOnlyOnYes`, `ParametersOnlyOnYes` and `VariableCommentOnlyOnYes` |
| Prompts.IsValidMode | main.cpp:128 | only the exact answers `IN`, `OUT` and `IN/OUT` are valid modes; used by `FirstValidMode` |
| Prompts.FirstValidMode | main.cpp:123-138 | the mode the re-prompt loop settles on is the first answer that is exactly IN, OUT or IN/OUT, with everything up to it consumed; there is none exactly when no answer is valid |
| Prompts.GetValidParameterMode | main.cpp:118-139 | the loop returns a valid mode and the answers after it, exactly as `FirstValidMode` says, and returns none where the program would prompt forever |
| Output.Overwrite | main.cpp:476-478 | the file after writing at the put position; its shape is `OverwriteShape` and `OverwriteThen` |
| Output.OverwriteShape | main.cpp:476-478 | writing at the put position keeps the text before it, places the new text there, and keeps whatever lies beyond it |
| Output.OverwriteThen | main.cpp:477-478 | two writes in a row are one write of the concatenation |
| Output.OutputFile.Write | main.cpp:381 | writes overwrite from the put position and advance it; at the end of the file a write appends |
| Output.OutputFile.SeekBack | main.cpp:476 | `seekp(-n, ios::cur)` moves the put position back by n and changes no text |
| Formatting.Padding | main.cpp:196-201 | the count `80 - 9 - length` of `=`, none when it is not positive; its effect is `BannerShape` |
| Formatting.Banner | main.cpp:193-202 | the banner line; its shape is `BannerShape` |
| Formatting.BannerShape | main.cpp:193-202 | the banner is `// ==== NAME ` followed by `=` up to column 80, or no `=` at all for a name longer than 71 characters |
| Formatting.FunctionHeaderLines | main.cpp:192-223 | the lines of the header block, ending with the 79-character rule line of main.cpp:222 and a blank line; their shape is `HeaderSections` |
| Formatting.HeaderSections | main.cpp:192-223 | the header opens with two blank lines, the banner and the description; it has an Input section exactly when there are parameters and an Output section exactly when there is a return description; it ends with the rule line and a blank line |
| Formatting.ParameterLine | main.cpp:425 | the `funcParams` string `name [MODE] -- description`; for a given parameter name, `ParameterLineDetermined` shows the line determines the mode and the description |
| Formatting.ParameterLineDetermined | main.cpp:425 | for a given parameter name and valid modes, the `funcParams` line determines the mode and the description |
| Formatting.WriteBanner | main.cpp:193-202 | the banner statements and the `=` loop append exactly the banner line |
| Formatting.WriteSection | main.cpp:208-220 | an Input or Output section appends its three lines |
| Formatting.CreateFunctionHeader | main.cpp:189-224 | appends exactly the lines of `FunctionHeaderLines`, each followed by a newline |
| Paths.ExpandPath | main.cpp:31-44 | a leading `~` is replaced by HOME when HOME is set; otherwise the path is returned unchanged |
| Paths.ExpandKeepsRest | main.cpp:40 | everything after the `~` survives as the suffix of the expanded path |
| Paths.ExpandIdempotent | main.cpp:31-44 | expanding an expanded path changes nothing, provided HOME does not begin with `~` and, when HOME is empty, the path's second character is not `~` |
| Annotator.EndMarker | main.cpp:477-478 | the marker line `  // end of "NAME"` and two blank lines; `EndMarkerReplacesLastCharacter` places it |
| Annotator.ParametersReply | main.cpp:408-426 | the `hasParams` prompt and the parameter prompts; see `ParametersOnlyOnYes` and `ParametersReplyUnread` |
| Annotator.FunctionComment | main.cpp:391-432 | the function-comment prompts and the header they produce; see `WriteFunctionComment`, `FunctionCommentOnlyOnYes` and `FunctionCommentHangs` |
| Annotator.VariableComment | main.cpp:448-459 | the variable prompts and their comment line; see `WriteVariableComment` and `VariableCommentOnlyOnYes` |
| Annotator.Annotation | main.cpp:386-461 | the function branch, else the variable branch, else nothing, before the line is copied; see `AnnotationUnread` |
| Annotator.EchoedLine | main.cpp:464-480 | the copy of the line and the optional end-marker patch; see `WriteLine`, `EchoedLineVerbatim` and `EndMarkerReplacesLastCharacter` |
| Annotator.LineStep | main.cpp:376-482 | one iteration: a comment line is copied, any other line gets its annotation, its copy and the patch; see `ProcessLine`, `CommentLineVerbatim` and `LineStepUnread` |
| Annotator.Run | main.cpp:372-483 | the loop on values, with `previousLine` and the unread answers; `None` where the program waits forever; see `ProcessLines` and the loop laws |
| Annotator.SeekPatchKeepsEarlierOutput | main.cpp:464-478 | seeking back 2 after the line's copy touches only that copy: earlier output is kept, and the copy loses its last two characters to the marker |
| Annotator.WriteFunctionComment | main.cpp:389-433 | the function-comment prompts write `FunctionComment`'s text and consume its answers, and finish exactly when it does |
| Annotator.WriteVariableComment | main.cpp:446-460 | the variable prompts write `    // COMMENT` only on yes, as `VariableComment` says |
| Annotator.WriteEndMarker | main.cpp:476-478 | seek back 2, then the marker line and two blank lines, applied at the end of the file |
| Annotator.WriteLine | main.cpp:464-480 | the copy of the line and the optional end marker produce `EchoedLine`'s text and consume its answers |
| Annotator.ProcessLine | main.cpp:376-482 | one pass of the loop body writes `LineStep`'s text and finishes exactly when `LineStep` does |
| Annotator.RunSnoc | main.cpp:376-483 | the loop over one more line is the loop so far followed by one iteration that starts from the last `previousLine` and the unread answers |
| Annotator.RunStaysStuck | main.cpp:423 | once an iteration waits forever for a parameter mode, the loop never finishes |
| Annotator.ProcessLines | main.cpp:372-483 | the loop finishes exactly when `Run` does, and then the file holds the earlier text followed by `Run`'s text, with `Run`'s answers left unread |
| LoopLaws.ParametersReplyUnread | main.cpp:410-423 | the parameter prompts read only from the front of the answers |
| LoopLaws.FunctionCommentUnread | main.cpp:393-429 | the function-comment prompts read only from the front of the answers |
| LoopLaws.AnnotationUnread | main.cpp:387-461 | whichever comment is asked for, only the front of the answers is read |
| LoopLaws.LineStepUnread | main.cpp:376-482 | one iteration reads only from the front of the answers |
| LoopLaws.RunUnread | main.cpp:376-483 | the whole loop reads the answers in order: what is left is a suffix of them |
| LoopLaws.EndMarkerReplacesLastCharacter | main.cpp:464-478 | a likely function end given a non-empty name becomes the line without its last character, followed by the end marker |
| LoopLaws.EchoedLineVerbatim | main.cpp:464-480 | the line is copied unchanged exactly when it is no likely function end or the name given is empty |
| LoopLaws.LoneBraceIsReplaced | main.cpp:464-478 | a `}` alone on its line, once named, is replaced entirely by the end marker |
| LoopLaws.LoneBraceIsFunctionEnd | main.cpp:279-306 | a lone `}` is a likely function end unless the previous line looks like a control structure |
| LoopLaws.FunctionCommentOnlyOnYes | main.cpp:393-432 | a function header is written exactly when the first answer is `y` or `Y`; otherwise only that answer is consumed |
| LoopLaws.ParametersOnlyOnYes | main.cpp:410-426 | the parameter line, and so the Input section, is non-empty exactly when the parameters answer is `y` or `Y`; otherwise only that answer is consumed |
| LoopLaws.VariableCommentOnlyOnYes | main.cpp:450-459 | a variable comment is written exactly when the answer is `y` or `Y`, and it starts with `    // ` |
| LoopLaws.FunctionCommentHangs | main.cpp:395-426 | the function prompts never finish exactly when both the comment answer and the parameter answer are yes and no answer after the parameter's name and description is a valid mode |
| LoopLaws.CommentLineVerbatim | main.cpp:379-384 | an existing comment is copied with its newline and reads no answer |
| LoopLaws.RunPreviousLine | main.cpp:373-482 | `previousLine` is the last line processed, on the comment path and on the normal path alike, and empty before the first line |
| LoopLaws.RunPrefix | main.cpp:376-483 | later lines only append: what the first lines wrote stays a prefix of the output, and later lines read only answers the first lines left unread |
| LoopLaws.LineStepWithoutAnswers | main.cpp:376-482 | with the answers exhausted, an iteration copies the line and writes nothing else |
| LoopLaws.RunCommentsOnly | main.cpp:376-384 | a file of comment lines only is copied verbatim and reads no answer |
| LoopLaws.RunWithoutAnswers | main.cpp:376-483 | with no answers at all, the output is exactly the input, line by line |

## Left out

- File handling: opening, closing and checking the files, the input-path prompts, `CheckIfFileExists` and `GetValidFilePath`. These are I/O on the file system. The input file is the sequence of its lines, as `getline` splits it.
- `CreateFileHeader` and the prompts before the loop: the output file name with its `commented_` default, the date, the project and the description. These are fixed-format I/O glue around the core. The answers in the model begin with the first `getline(cin, …)` inside the loop, and `ProcessLines` starts from whatever text the output file already holds.
- `getenv("HOME")`: an environment call, passed to `ExpandPath` as an `Option`.
- Everything written to `cout`: prompts, the "Found …" messages and the final summary. It does not affect the output file.
- Prompts.GetValidParameterMode: where the program re-prompts forever on an exhausted input, the model stops and returns `None`. Its `paramName` argument appears only in the prompt text, so the model does not take it.
- Annotator.ProcessLines: stream failure states are not modelled. The seek back always stays inside the line just written, because a likely function end is never empty.
- `endl` is written as a single `\n`. Flushing and Windows line endings are not modelled.
- Formatting.CreateFunctionHeader: `nameLength` is an `int` computed from `size_t`. The model uses unbounded integers, which agree with the source for any name shorter than 2^31 characters.
- Characters: a Dafny `char` stands for one byte of `std::string`. The length test `trimmed.length() <= 3` (main.cpp:305) and the two-character seek back (main.cpp:476) count bytes, so the model is exact for byte-wise text such as ASCII. It is not exact for multi-byte characters: for `}é` in UTF-8 the program keeps half of `é`.
