/** The extraction loop of domains.py: for every merged row, the DOMAIN start..end
    annotations of its Domain [FT] cell become domain rows when start < end <= the
    sequence length, and a row without any annotation becomes one sentinel row
    with empty coordinates. */
module Extraction {
  import opened Wrappers
  import opened Text
  import opened Records
  import opened DomainScan

  /** str() of a cell: an empty cell prints as nan. */
  function Render(cell: Option<string>): string
  {
    match cell
    case Some(s) => s
    case None => "nan"
  }

  /** Start, End and Domain_Len of a domain row. */
  datatype Coords = Coords(start: nat, end: nat, domainLen: nat)

  /** One row of df_domains; a sentinel has no coordinates. */
  datatype DomainRow = DomainRow(
    entry: string,
    coords: Option<Coords>,
    proteinLen: nat,
    sourceFile: string,
    existence: string,
    evidence: string)

  /** A domain row lies inside its protein and its length counts both ends. */
  predicate WellFormed(r: DomainRow)
  {
    r.coords.Some? ==>
      && r.coords.value.start < r.coords.value.end <= r.proteinLen
      && r.coords.value.domainLen == r.coords.value.end - r.coords.value.start + 1
  }

  /** The row copies the entry, the sequence length, the source label and the
      rendered annotation cells of the merged row. */
  predicate Describes(r: DomainRow, row: LinkedRow)
  {
    && r.entry == row.seqRow.entry
    && r.proteinLen == |row.seqRow.sequence|
    && r.sourceFile == row.seqRow.sourceFile
    && r.existence == Render(row.existence)
    && r.evidence == Render(row.evidence)
  }

  /** The validation of one candidate: start < end <= len(seq). */
  predicate Accepted(span: (nat, nat), row: LinkedRow)
  {
    span.0 < span.1 <= |row.seqRow.sequence|
  }

  function DomainFor(row: LinkedRow, s: nat, e: nat): DomainRow
    requires s < e
  {
    DomainRow(row.seqRow.entry, Some(Coords(s, e, e - s + 1)), |row.seqRow.sequence|,
      row.seqRow.sourceFile, Render(row.existence), Render(row.evidence))
  }

  function Sentinel(row: LinkedRow): DomainRow
  {
    DomainRow(row.seqRow.entry, None, |row.seqRow.sequence|,
      row.seqRow.sourceFile, Render(row.existence), Render(row.evidence))
  }

  /** The rows of the accepted candidates, in the order they were found. */
  function CandidateRows(row: LinkedRow, spans: seq<(nat, nat)>): (r: seq<DomainRow>)
    ensures |r| <= |spans|
    ensures forall k :: 0 <= k < |r| ==> r[k].coords.Some? && WellFormed(r[k]) && Describes(r[k], row)
    ensures (forall j :: 0 <= j < |spans| ==> !Accepted(spans[j], row)) ==> r == []
  {
    if spans == [] then []
    else
      var front := CandidateRows(row, spans[..|spans| - 1]);
      var last := spans[|spans| - 1];
      if Accepted(last, row) then front + [DomainFor(row, last.0, last.1)] else front
  }

  /** Every domain row comes from an accepted candidate with the same coordinates. */
  lemma {:induction false} CandidateRowsSound(row: LinkedRow, spans: seq<(nat, nat)>, k: nat)
    returns (j: nat)
    requires k < |CandidateRows(row, spans)|
    ensures j < |spans| && Accepted(spans[j], row)
    ensures CandidateRows(row, spans)[k] == DomainFor(row, spans[j].0, spans[j].1)
  {
    var front := spans[..|spans| - 1];
    var f := CandidateRows(row, front);
    if k < |f| {
      j := CandidateRowsSound(row, front, k);
      assert CandidateRows(row, spans)[k] == f[k];
    } else {
      j := |spans| - 1;
    }
  }

  /** Every accepted candidate gives a domain row with its coordinates. */
  lemma {:induction false} CandidateRowsComplete(row: LinkedRow, spans: seq<(nat, nat)>, j: nat)
    returns (k: nat)
    requires j < |spans| && Accepted(spans[j], row)
    ensures k < |CandidateRows(row, spans)|
    ensures CandidateRows(row, spans)[k] == DomainFor(row, spans[j].0, spans[j].1)
  {
    var front := spans[..|spans| - 1];
    var f := CandidateRows(row, front);
    if j < |spans| - 1 {
      assert front[j] == spans[j];
      k := CandidateRowsComplete(row, front, j);
      assert CandidateRows(row, spans)[k] == f[k];
    } else {
      k := |f|;
    }
  }

  /** The candidates re.findall finds in the Domain [FT] cell. */
  function Candidates(row: LinkedRow): seq<(nat, nat)>
  {
    Spans(FindAll(Render(row.domainFt)))
  }

  /** The domain rows of one merged row: each is well formed and describes the row. */
  function ExtractRow(row: LinkedRow): (r: seq<DomainRow>)
    ensures forall k :: 0 <= k < |r| ==> WellFormed(r[k]) && Describes(r[k], row)
  {
    var spans := Candidates(row);
    if spans == [] then [Sentinel(row)] else CandidateRows(row, spans)
  }

  /** There is a sentinel exactly when the cell holds no annotation at all, and then
      it is the only row; otherwise every row has coordinates. */
  lemma ExtractRowSentinel(row: LinkedRow)
    ensures (exists k :: 0 <= k < |ExtractRow(row)| && ExtractRow(row)[k].coords.None?)
            <==> Candidates(row) == []
    ensures Candidates(row) == [] ==> ExtractRow(row) == [Sentinel(row)]
    ensures Candidates(row) != [] ==>
      forall k :: 0 <= k < |ExtractRow(row)| ==> ExtractRow(row)[k].coords.Some?
  {
    if Candidates(row) == [] {
      assert ExtractRow(row)[0].coords.None?;
    }
  }

  /** A protein whose annotations all fail validation contributes no row. */
  lemma AllRejected(row: LinkedRow)
    requires Candidates(row) != []
    requires forall j :: 0 <= j < |Candidates(row)| ==> !Accepted(Candidates(row)[j], row)
    ensures ExtractRow(row) == []
  {
  }

  /** A merged row without an annotation row has "nan" in its Domain [FT] cell, which
      holds no annotation, so it gives one sentinel row with existence and evidence
      "nan". */
  lemma UnmatchedRowSentinel(row: LinkedRow)
    requires row.domainFt.None? && row.existence.None? && row.evidence.None?
    ensures ExtractRow(row) == [DomainRow(row.seqRow.entry, None, |row.seqRow.sequence|,
      row.seqRow.sourceFile, "nan", "nan")]
  {
    NanNoHit();
  }

  /** A cell listing annotations gives the rows of exactly the accepted ones. */
  lemma ExtractField(row: LinkedRow, spans: seq<(nat, nat)>)
    requires spans != [] && row.domainFt == Some(Field(spans))
    ensures ExtractRow(row) == CandidateRows(row, spans)
  {
    FieldRoundTrip(spans);
  }

  /** The annotation DOMAIN 10..40 on a 50-residue protein gives one domain row
      from 10 to 40 of length 31. */
  lemma SingleDomainExample(row: LinkedRow)
    requires row.seqRow.entry == "P12345" && |row.seqRow.sequence| == 50
    requires row.domainFt == Some(Field([(10, 40)]))
    ensures ExtractRow(row) == [DomainRow("P12345", Some(Coords(10, 40, 31)), 50,
      row.seqRow.sourceFile, Render(row.existence), Render(row.evidence))]
  {
    ExtractField(row, [(10, 40)]);
    assert [(10, 40)][..0] == [];
  }

  /** df_domains: the rows of every merged row in turn. */
  function ExtractAll(merged: seq<LinkedRow>): (r: seq<DomainRow>)
    ensures forall k :: 0 <= k < |r| ==> WellFormed(r[k])
  {
    if merged == [] then []
    else
      var front := ExtractAll(merged[..|merged| - 1]);
      var last := ExtractRow(merged[|merged| - 1]);
      front + last
  }

  /** Every domain row describes one of the merged rows. */
  lemma {:induction false} ExtractAllProvenance(merged: seq<LinkedRow>, k: nat) returns (i: nat)
    requires k < |ExtractAll(merged)|
    ensures i < |merged| && Describes(ExtractAll(merged)[k], merged[i])
  {
    var front := merged[..|merged| - 1];
    var f := ExtractAll(front);
    if k < |f| {
      i := ExtractAllProvenance(front, k);
      assert ExtractAll(merged)[k] == f[k];
    } else {
      i := |merged| - 1;
    }
  }

  /** The rows of the first n merged rows come first, in the same order. */
  lemma {:induction false} ExtractAllPrefix(merged: seq<LinkedRow>, n: nat)
    requires n <= |merged|
    ensures |ExtractAll(merged[..n])| <= |ExtractAll(merged)|
    ensures ExtractAll(merged)[..|ExtractAll(merged[..n])|] == ExtractAll(merged[..n])
    decreases |merged|
  {
    if n == |merged| {
      assert merged[..n] == merged;
    } else {
      var front := merged[..|merged| - 1];
      assert merged[..n] == front[..n];
      ExtractAllPrefix(front, n);
    }
  }

  /** The rows of merged row i, sentinel included, stand together in df_domains,
      right after the rows of the merged rows before it. */
  lemma ExtractAllBlock(merged: seq<LinkedRow>, i: nat)
    requires i < |merged|
    ensures var p := |ExtractAll(merged[..i])|; var rows := ExtractRow(merged[i]);
      && p + |rows| <= |ExtractAll(merged)|
      && ExtractAll(merged)[p..p + |rows|] == rows
  {
    var p := |ExtractAll(merged[..i])|;
    var rows := ExtractRow(merged[i]);
    assert merged[..i + 1][..i] == merged[..i];
    assert ExtractAll(merged[..i + 1]) == ExtractAll(merged[..i]) + rows;
    ExtractAllPrefix(merged, i + 1);
    var whole := ExtractAll(merged);
    assert whole[..p + |rows|] == ExtractAll(merged[..i]) + rows;
    assert whole[p..p + |rows|] == whole[..p + |rows|][p..];
  }

  /** A merged row without any annotation is reported by its sentinel row. */
  lemma SentinelReported(merged: seq<LinkedRow>, i: nat) returns (p: nat)
    requires i < |merged| && Candidates(merged[i]) == []
    ensures p < |ExtractAll(merged)| && ExtractAll(merged)[p] == Sentinel(merged[i])
  {
    ExtractAllBlock(merged, i);
    ExtractRowSentinel(merged[i]);
    p := |ExtractAll(merged[..i])|;
    assert ExtractAll(merged)[p] == ExtractAll(merged)[p..p + 1][0];
  }

  /** The inner loop over the matches of one merged row. */
  method AppendCandidates(domainRows: seq<DomainRow>, row: LinkedRow, matches: seq<(nat, nat)>)
    returns (out: seq<DomainRow>)
    ensures out == domainRows + CandidateRows(row, matches)
  {
    out := domainRows;
    var j := 0;
    while j < |matches|
      invariant 0 <= j <= |matches|
      invariant out == domainRows + CandidateRows(row, matches[..j])
    {
      assert matches[..j + 1][..j] == matches[..j];
      var (s, e) := matches[j];
      if s < e <= |row.seqRow.sequence| {
        out := out + [DomainFor(row, s, e)];
      }
      j := j + 1;
    }
    assert matches[..j] == matches;
  }

  /** The extraction loop, appending to domain_rows. */
  method ExtractDomains(merged: seq<LinkedRow>) returns (domainRows: seq<DomainRow>)
    ensures domainRows == ExtractAll(merged)
  {
    domainRows := [];
    var i := 0;
    while i < |merged|
      invariant 0 <= i <= |merged|
      invariant domainRows == ExtractAll(merged[..i])
    {
      var row := merged[i];
      var matches := Candidates(row);
      assert merged[..i + 1][..i] == merged[..i];
      if matches != [] {
        domainRows := AppendCandidates(domainRows, row, matches);
      } else {
        domainRows := domainRows + [Sentinel(row)];
      }
      i := i + 1;
    }
    assert merged[..i] == merged;
  }
}
