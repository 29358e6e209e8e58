/** ExpandPath: a leading `~` stands for the home directory, given here as the value of HOME. */
module Paths {
  import opened Wrappers

  function ExpandPath(fileName: string, home: Option<string>): (r: string)
    ensures |fileName| > 0 && fileName[0] == '~' && home.Some? ==> r == home.value + fileName[1..]
    ensures !(|fileName| > 0 && fileName[0] == '~' && home.Some?) ==> r == fileName
  {
    if |fileName| > 0 && fileName[0] == '~' then
      match home
      case Some(homePath) => homePath + fileName[1..]
      case None => fileName
    else fileName
  }

  /** Only the leading `~` is replaced: the rest of the path is kept as its suffix. */
  lemma ExpandKeepsRest(fileName: string, home: Option<string>)
    requires |fileName| > 0
    ensures var r := ExpandPath(fileName, home);
      |r| >= |fileName| - 1 && r[|r| - (|fileName| - 1)..] == fileName[1..]
  {
  }

  /**
   * Expanding twice is expanding once, provided HOME does not begin with `~`
   * and, when HOME is empty, the path's second character is not `~`.
   */
  lemma ExpandIdempotent(fileName: string, home: Option<string>)
    requires home.Some? ==> home.value == [] || home.value[0] != '~'
    requires home.Some? && home.value == [] ==> |fileName| < 2 || fileName[1] != '~'
    ensures ExpandPath(ExpandPath(fileName, home), home) == ExpandPath(fileName, home)
  {
  }
}
