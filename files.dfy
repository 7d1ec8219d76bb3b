/** An output text file, seen as the lines written to it so far.
    Every write in the scripts is one string followed by a line feed. */
module Files {
  import opened Text
  import opened FastaWrap

  class TextFile {
    var lines: seq<string>

    constructor ()
      ensures lines == []
    {
      lines := [];
    }

    /** open(path, "w"): the previous content is discarded. */
    method Truncate()
      modifies this
      ensures lines == []
    {
      lines := [];
    }

    /** f.write(line + "\n"). */
    method WriteLine(line: string)
      modifies this
      ensures lines == old(lines) + [line]
    {
      lines := lines + [line];
    }
  }

  /** Writes the lines one after the other. */
  method WriteLines(f: TextFile, ls: seq<string>)
    modifies f
    ensures f.lines == old(f.lines) + ls
  {
    ghost var f0 := f.lines;
    var i := 0;
    while i < |ls|
      invariant i <= |ls|
      invariant f.lines + ls[i..] == f0 + ls
    {
      ghost var before := f.lines;
      f.WriteLine(ls[i]);
      assert ls[i..] == [ls[i]] + ls[i + 1..];
      AppendAssoc(before, [ls[i]], ls[i + 1..]);
      i := i + 1;
    }
  }

  /** The wrap loop: writes the 70-character chunks of s, one per line. */
  method WriteWrapped(f: TextFile, s: string)
    modifies f
    ensures f.lines == old(f.lines) + Wrap(s)
  {
    var i: nat := 0;
    while i < |s|
      invariant f.lines + ChunksFrom(s, i) == old(f.lines) + Wrap(s)
      decreases |s| - i
    {
      f.WriteLine(s[i..Min(i + LineWidth, |s|)]);
      i := i + LineWidth;
    }
  }
}
