/** The 70-column line wrapping shared by every FASTA writer:
    for i in range(0, len(s), 70): write(s[i:i+70]). */
module FastaWrap {
  import opened Text

  const LineWidth: nat := 70

  /** The chunks written by the wrap loop from offset i on. */
  function ChunksFrom(s: string, i: nat): seq<string>
    decreases |s| - i
  {
    if i >= |s| then [] else [s[i..Min(i + LineWidth, |s|)]] + ChunksFrom(s, i + LineWidth)
  }

  /** The body lines of one FASTA record. */
  function Wrap(s: string): seq<string>
  {
    ChunksFrom(s, 0)
  }

  /** Joining the chunks gives back the wrapped text. */
  lemma {:induction false} ChunksFromConcat(s: string, i: nat)
    requires i <= |s|
    ensures Concat(ChunksFrom(s, i)) == s[i..]
    decreases |s| - i
  {
    if i < |s| {
      var j := Min(i + LineWidth, |s|);
      ChunksFromConcat(s, j);
      if j < i + LineWidth {
        assert ChunksFrom(s, i + LineWidth) == [];
      }
      assert s[i..] == s[i..j] + s[j..];
    }
  }

  /** Every chunk is non-empty and at most 70 characters; all but the last are exactly 70;
      there are ceil((|s| - i) / 70) of them. */
  lemma {:induction false} ChunksFromShape(s: string, i: nat)
    requires i <= |s|
    ensures var c := ChunksFrom(s, i);
      && |c| == (|s| - i + LineWidth - 1) / LineWidth
      && (forall k :: 0 <= k < |c| ==> 0 < |c[k]| <= LineWidth)
      && (forall k :: 0 <= k < |c| - 1 ==> |c[k]| == LineWidth)
    decreases |s| - i
  {
    if i < |s| {
      if i + LineWidth <= |s| {
        ChunksFromShape(s, i + LineWidth);
      } else {
        assert ChunksFrom(s, i + LineWidth) == [];
      }
    }
  }

  /** The wrapped lines concatenate to the text, are at most 70 characters,
      all but the last exactly 70; an empty text gives no line. */
  lemma WrapProperties(s: string)
    ensures Concat(Wrap(s)) == s
    ensures |Wrap(s)| == (|s| + LineWidth - 1) / LineWidth
    ensures forall k :: 0 <= k < |Wrap(s)| ==> 0 < |Wrap(s)[k]| <= LineWidth
    ensures forall k :: 0 <= k < |Wrap(s)| - 1 ==> |Wrap(s)[k]| == LineWidth
  {
    ChunksFromConcat(s, 0);
    ChunksFromShape(s, 0);
  }
}
