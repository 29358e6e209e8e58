/**
 * The interactive answers. Every `getline(cin, s)` of the line loop reads the
 * next canned answer; once the answers are exhausted `getline` fails and leaves
 * its freshly declared, empty string as it was.
 */
module Prompts {
  import opened Wrappers

  /** An answer (or something built from answers) and the answers not yet read. */
  datatype Reply<T> = Reply(value: T, rest: seq<string>)

  /** One `getline(cin, s)` into an empty `s`. */
  function Ask(answers: seq<string>): (r: Reply<string>)
    ensures answers != [] ==> r.value == answers[0] && r.rest == answers[1..]
    ensures answers == [] ==> r.value == "" && r.rest == []
  {
    if answers == [] then Reply("", []) else Reply(answers[0], answers[1..])
  }

  /** Only the exact answers `y` and `Y` count as yes. */
  predicate IsYes(answer: string)
  {
    answer == "y" || answer == "Y"
  }

  /** The validity test of GetValidParameterMode. */
  predicate IsValidMode(mode: string)
  {
    mode == "IN" || mode == "OUT" || mode == "IN/OUT"
  }

  /**
   * The answer GetValidParameterMode settles on: the first exactly valid mode,
   * with everything up to and including it consumed. `None` when no answer is
   * valid: the program then re-prompts forever on an exhausted input.
   */
  function FirstValidMode(answers: seq<string>): (r: Option<Reply<string>>)
    ensures r.Some? ==>
      var k := |answers| - |r.value.rest| - 1;
      0 <= k < |answers| && answers[k] == r.value.value && IsValidMode(r.value.value) &&
      r.value.rest == answers[k + 1..] &&
      forall j :: 0 <= j < k ==> !IsValidMode(answers[j])
    ensures r.None? <==> forall j :: 0 <= j < |answers| ==> !IsValidMode(answers[j])
  {
    if answers == [] then None
    else if IsValidMode(answers[0]) then Some(Reply(answers[0], answers[1..]))
    else
      var r := FirstValidMode(answers[1..]);
      assert forall j :: 1 <= j < |answers| ==> answers[j] == answers[1..][j - 1];
      r
  }

  /**
   * GetValidParameterMode: read answers until one is exactly IN, OUT or IN/OUT.
   * Where the program would loop forever on an exhausted input, the model stops
   * and answers `None`.
   */
  method GetValidParameterMode(answers: seq<string>) returns (mode: Option<string>, rest: seq<string>)
    ensures mode.Some? ==> IsValidMode(mode.value)
    ensures FirstValidMode(answers) == if mode.Some? then Some(Reply(mode.value, rest)) else None
  {
    var m := "";
    var validMode := false;
    var i := 0;
    while !validMode
      invariant 0 <= i <= |answers|
      invariant !validMode ==> FirstValidMode(answers[i..]) == FirstValidMode(answers)
      invariant validMode ==> IsValidMode(m) && FirstValidMode(answers) == Some(Reply(m, answers[i..]))
      decreases |answers| - i
    {
      if i == |answers| {
        return None, [];
      }
      assert answers[i..][1..] == answers[i + 1..];
      m := answers[i];
      i := i + 1;
      if m == "IN" || m == "OUT" || m == "IN/OUT" {
        validMode := true;
      }
    }
    mode, rest := Some(m), answers[i..];
  }
}
