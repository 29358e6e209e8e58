/**
 * The output file stream. Writing puts characters at the current put position,
 * overwriting what is there and extending the file past its end; `seekp(-n,
 * ios::cur)` moves the put position back. The comment generator uses the seek
 * once, to overwrite the end of a line it has just written.
 */
module Output {

  /** The file after writing `s` at put position `p` of `t`. */
  function Overwrite(t: string, p: nat, s: string): string
    requires p <= |t|
  {
    t[..p] + s + if p + |s| <= |t| then t[p + |s|..] else []
  }

  /** What is before the put position stays, `s` follows, and what lies beyond `s` stays. */
  lemma OverwriteShape(t: string, p: nat, s: string)
    requires p <= |t|
    ensures var r := Overwrite(t, p, s);
      |r| == (if p + |s| <= |t| then |t| else p + |s|) &&
      r[..p] == t[..p] && r[p..p + |s|] == s &&
      (p + |s| <= |t| ==> r[p + |s|..] == t[p + |s|..])
  {
  }

  /** Two writes in a row are one write of the concatenation. */
  lemma OverwriteThen(t: string, p: nat, a: string, b: string)
    requires p <= |t|
    ensures Overwrite(Overwrite(t, p, a), p + |a|, b) == Overwrite(t, p, a + b)
  {
  }

  /** An open output file: its contents and its put position. */
  class OutputFile {
    var text: string
    var pos: nat

    ghost predicate Valid()
      reads this
    {
      pos <= |text|
    }

    /** The put position is at the end of the file, as it is after ordinary writes. */
    predicate AtEnd()
      reads this
    {
      pos == |text|
    }

    /** A newly created, empty file. */
    constructor ()
      ensures Valid() && AtEnd() && text == []
    {
      text, pos := [], 0;
    }

    /** `outputFile << s`. */
    method Write(s: string)
      requires Valid()
      modifies this
      ensures Valid()
      ensures text == Overwrite(old(text), old(pos), s) && pos == old(pos) + |s|
      ensures old(AtEnd()) ==> AtEnd() && text == old(text) + s
    {
      OverwriteShape(text, pos, s);
      text := Overwrite(text, pos, s);
      pos := pos + |s|;
    }

    /** `outputFile.seekp(-n, ios::cur)`. */
    method SeekBack(n: nat)
      requires Valid() && n <= pos
      modifies this
      ensures Valid() && text == old(text) && pos == old(pos) - n
    {
      pos := pos - n;
    }
  }
}
