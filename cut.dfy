/** cut_domains.py: one sub-sequence cut typed in by the user, validated, given a
    header and appended to subsequence.fasta. */
module CutDomains {
  import opened Wrappers
  import opened Text
  import opened FastaWrap
  import opened Files
  import opened Records
  import opened Extraction

  /** The two ValueErrors raised by the validation. */
  datatype CutError = InvalidRange | EndBeyondSequence

  datatype Cut = Cut(header: string, subseq: string)

  /** The typed identifier, or "SEQ" when it is blank. */
  function Accession(raw: string): (acc: string)
    ensures acc != []
    ensures Strip(raw) != [] ==> acc == Strip(raw)
  {
    var a := Strip(raw);
    if a == [] then "SEQ" else a
  }

  /** The typed sequence, stripped and upper-cased. */
  function Residues(raw: string): (s: string)
    ensures |s| == |Strip(raw)|
  {
    ToUpper(Strip(raw))
  }

  /** The cutter's acceptance rule: 1 <= start <= end <= len. */
  predicate CutAccepts(start: int, end: int, len: nat)
  {
    1 <= start <= end <= len
  }

  function CutHeader(acc: string, start: nat, end: nat, sublen: nat): string
  {
    ">" + acc + "_dom_" + Dec(start) + "_" + Dec(end) + "|len=" + Dec(sublen)
  }

  function PrepareCut(accRaw: string, seqRaw: string, start: int, end: int): (r: Result<Cut, CutError>)
    ensures r.Success? <==> CutAccepts(start, end, |Residues(seqRaw)|)
    ensures r == Failure(InvalidRange) <==> (start < 1 || end < 1 || start > end)
    ensures r.Success? ==>
      && r.value.subseq == Residues(seqRaw)[start - 1..end]
      && |r.value.subseq| == end - start + 1 >= 1
      && r.value.header == CutHeader(Accession(accRaw), start, end, end - start + 1)
  {
    var acc := Accession(accRaw);
    var s := Residues(seqRaw);
    if start < 1 || end < 1 || start > end then Failure(InvalidRange)
    else if end > |s| then Failure(EndBeyondSequence)
    else
      var sub := PySlice(s, start - 1, end);
      Success(Cut(CutHeader(acc, start, end, |sub|), sub))
  }

  /** The whole script after reading its four inputs: a rejected input writes
      nothing, an accepted one appends the header and the 70-column body. */
  method AppendCut(f: TextFile, accRaw: string, seqRaw: string, start: int, end: int)
    returns (r: Result<Cut, CutError>)
    modifies f
    ensures r == PrepareCut(accRaw, seqRaw, start, end)
    ensures r.Failure? ==> f.lines == old(f.lines)
    ensures r.Success? ==> f.lines == old(f.lines) + [r.value.header] + Wrap(r.value.subseq)
  {
    var acc := Accession(accRaw);
    var s := Residues(seqRaw);
    if start < 1 || end < 1 || start > end {
      return Failure(InvalidRange);
    }
    if end > |s| {
      return Failure(EndBeyondSequence);
    }
    var sub := PySlice(s, start - 1, end);
    var header := CutHeader(acc, start, end, |sub|);
    f.WriteLine(header);
    WriteWrapped(f, sub);
    r := Success(Cut(header, sub));
  }

  /** The cut holds no lower-case letter. */
  lemma CutIsUpperCase(accRaw: string, seqRaw: string, start: int, end: int)
    requires PrepareCut(accRaw, seqRaw, start, end).Success?
    ensures var sub := PrepareCut(accRaw, seqRaw, start, end).value.subseq;
      forall k :: 0 <= k < |sub| ==> !('a' <= sub[k] <= 'z')
  {
    var sub := PrepareCut(accRaw, seqRaw, start, end).value.subseq;
    var s := Residues(seqRaw);
    assert forall k :: 0 <= k < |sub| ==> sub[k] == s[start - 1 + k];
  }

  /** The appended body joins back to the cut and has lines of at most 70 residues. */
  lemma AppendedBody(accRaw: string, seqRaw: string, start: int, end: int)
    requires PrepareCut(accRaw, seqRaw, start, end).Success?
    ensures var sub := PrepareCut(accRaw, seqRaw, start, end).value.subseq;
      && Concat(Wrap(sub)) == Residues(seqRaw)[start - 1..end]
      && |Wrap(sub)| == (end - start + 1 + LineWidth - 1) / LineWidth
      && forall k :: 0 <= k < |Wrap(sub)| ==> 0 < |Wrap(sub)[k]| <= LineWidth
  {
    WrapProperties(PrepareCut(accRaw, seqRaw, start, end).value.subseq);
  }

  /** The cutter and the pipeline disagree on two kinds of input: a single-residue
      range (start == end) is cut here but never extracted by the pipeline, and a
      range starting at 0 passes the pipeline's check but is rejected here. On every
      other range inside the sequence they agree. */
  lemma AcceptanceComparedWithPipeline(row: LinkedRow, s: nat, e: nat)
    ensures s >= 1 && Accepted((s, e), row) ==> CutAccepts(s, e, |row.seqRow.sequence|)
    ensures CutAccepts(s, e, |row.seqRow.sequence|) && s < e ==> Accepted((s, e), row)
    ensures s == e ==> !Accepted((s, e), row)
    ensures 1 <= s == e <= |row.seqRow.sequence| ==> CutAccepts(s, e, |row.seqRow.sequence|)
    ensures s == 0 < e <= |row.seqRow.sequence| ==> Accepted((s, e), row) && !CutAccepts(s, e, |row.seqRow.sequence|)
  {
  }
}
