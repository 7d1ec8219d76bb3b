/** The writers of domains.py: the step 3 summary (microdomains.txt), the step 4
    cuts (microdomains.fasta and microdomains_cuts.txt) and export_fasta of
    step 5. Each output file is a TextFile; a writer opens it with "w" and writes
    one string per line. */
module Export {
  import opened Wrappers
  import opened Text
  import opened FastaWrap
  import opened Files
  import opened Records
  import opened Extraction

  /** The dtype pandas gives the Start, End and Domain_Len columns of df_domains
      when it builds the frame from the extracted rows: int when every row has
      coordinates, float when some rows have them and some do not, and object
      when no row has them (every value is None). */
  datatype ColumnKind = IntColumn | FloatColumn | ObjectColumn

  /** Some row is a sentinel, without coordinates. */
  predicate HasSentinel(rows: seq<DomainRow>)
  {
    exists k :: 0 <= k < |rows| && rows[k].coords.None?
  }

  /** Some row has coordinates. */
  predicate HasCoords(rows: seq<DomainRow>)
  {
    exists k :: 0 <= k < |rows| && rows[k].coords.Some?
  }

  function ColumnKindOf(rows: seq<DomainRow>): (kind: ColumnKind)
    ensures kind == IntColumn <==> forall k :: 0 <= k < |rows| ==> rows[k].coords.Some?
    ensures kind == FloatColumn <==>
      (exists k :: 0 <= k < |rows| && rows[k].coords.None?) && (exists k :: 0 <= k < |rows| && rows[k].coords.Some?)
    ensures kind == ObjectColumn <==> |rows| > 0 && forall k :: 0 <= k < |rows| ==> rows[k].coords.None?
  {
    if !HasSentinel(rows) then
      assert rows != [] ==> rows[0].coords.Some?;
      IntColumn
    else if HasCoords(rows) then FloatColumn
    else ObjectColumn
  }

  /** A number of a Start, End or Domain_Len cell as str() renders it: a missing
      value is "None" in an object column and "nan" otherwise, a present one is
      "10.0" in a float column and "10" otherwise. */
  function NumCell(v: Option<nat>, kind: ColumnKind): (s: string)
    ensures '\t' !in s
  {
    match v
    case None => if kind == ObjectColumn then "None" else "nan"
    case Some(n) =>
      DecNoTab(n);
      Dec(n) + (if kind == FloatColumn then ".0" else "")
  }

  /** Reading a cell back: "nan" and "None" are missing, a trailing ".0" is dropped
      and the digits give the number. */
  function ReadNumCell(s: string): Option<nat>
  {
    if s == "nan" || s == "None" then None
    else if |s| >= 2 && s[|s| - 2..] == ".0" then Some(DecValue(s[..|s| - 2]))
    else Some(DecValue(s))
  }

  /** Every rendering of a cell reads back as the value it shows, whatever the
      column's dtype. */
  lemma NumCellRoundTrip(v: Option<nat>, kind: ColumnKind)
    ensures ReadNumCell(NumCell(v, kind)) == v
  {
    if v.Some? {
      var d := Dec(v.value);
      var s := NumCell(v, kind);
      assert s[0] == d[0] && IsDigit(s[0]);
      assert s != "nan" && s != "None";
      if kind == FloatColumn {
        assert s[..|s| - 2] == d;
      } else {
        assert s == d;
        assert |s| >= 2 ==> IsDigit(s[|s| - 2]);
        assert !(|s| >= 2 && s[|s| - 2..] == ".0");
      }
      DecRoundTrip(v.value);
    }
  }

  /** The dtype decides how the cells of every row of the table look: every row
      with coordinates prints its start as plain digits, with ".0" appended when
      another row is a sentinel, and every sentinel prints "nan", or "None" when
      all rows are sentinels. */
  lemma StartCellRendering(rows: seq<DomainRow>, k: nat)
    requires k < |rows|
    ensures rows[k].coords.Some? ==>
      StartCell(rows[k], ColumnKindOf(rows)) ==
        Dec(rows[k].coords.value.start) + (if HasSentinel(rows) then ".0" else "")
    ensures rows[k].coords.None? ==>
      StartCell(rows[k], ColumnKindOf(rows)) ==
        if HasCoords(rows) then "nan" else "None"
  {
  }

  function StartCell(r: DomainRow, kind: ColumnKind): string
  {
    NumCell(if r.coords.Some? then Some(r.coords.value.start) else None, kind)
  }

  function EndCell(r: DomainRow, kind: ColumnKind): string
  {
    NumCell(if r.coords.Some? then Some(r.coords.value.end) else None, kind)
  }

  function LenCell(r: DomainRow, kind: ColumnKind): string
  {
    NumCell(if r.coords.Some? then Some(r.coords.value.domainLen) else None, kind)
  }

  lemma DecNoTab(n: nat)
    ensures '\t' !in Dec(n)
  {
    assert forall k :: 0 <= k < |Dec(n)| ==> IsDigit(Dec(n)[k]);
  }

  // Step 3: microdomains.txt

  const SummaryPreamble: seq<string> := [
    "# Microdomains extracted from FASTA + UniProt metadata",
    "# Columns: Entry | Start | End | Domain_Len | Protein_Len | SourceFile | Protein_existence | Evidence",
    "# ----------------------------------------------",
    ""]

  /** The eight columns of one summary line. */
  function SummaryFields(r: DomainRow, kind: ColumnKind): seq<string>
  {
    [r.entry, StartCell(r, kind), EndCell(r, kind), LenCell(r, kind),
     Dec(r.proteinLen), r.sourceFile, r.existence, r.evidence]
  }

  function SummaryLine(r: DomainRow, kind: ColumnKind): string
  {
    JoinWith(SummaryFields(r, kind), '\t')
  }

  /** One summary line per domain row, in table order. */
  function SummaryBody(rows: seq<DomainRow>, kind: ColumnKind): (r: seq<string>)
    ensures |r| == |rows|
    ensures forall k :: 0 <= k < |rows| ==> r[k] == SummaryLine(rows[k], kind)
  {
    if rows == [] then []
    else SummaryBody(rows[..|rows| - 1], kind) + [SummaryLine(rows[|rows| - 1], kind)]
  }

  /** The whole content of microdomains.txt. */
  function SummaryText(rows: seq<DomainRow>): seq<string>
  {
    SummaryPreamble + SummaryBody(rows, ColumnKindOf(rows))
  }

  /** The row loop of step 3. */
  method WriteSummaryRows(f: TextFile, rows: seq<DomainRow>, kind: ColumnKind)
    modifies f
    ensures f.lines == old(f.lines) + SummaryBody(rows, kind)
  {
    ghost var f0 := f.lines;
    var i := 0;
    while i < |rows|
      invariant i <= |rows|
      invariant f.lines == f0 + SummaryBody(rows[..i], kind)
    {
      f.WriteLine(SummaryLine(rows[i], kind));
      assert rows[..i + 1][..i] == rows[..i];
      AppendAssoc(f0, SummaryBody(rows[..i], kind), [SummaryLine(rows[i], kind)]);
      i := i + 1;
    }
    assert rows[..i] == rows;
  }

  /** Step 3: microdomains.txt is opened for writing, gets the preamble and one line
      per row. */
  method WriteSummary(f: TextFile, rows: seq<DomainRow>)
    modifies f
    ensures f.lines == SummaryText(rows)
  {
    var kind := ColumnKindOf(rows);
    f.Truncate();
    WriteLines(f, SummaryPreamble);
    WriteSummaryRows(f, rows, kind);
  }

  /** Line 4 + k of the summary holds row k, and splitting it at the tabs gives back
      its eight columns when the text cells hold no tab. */
  lemma SummaryRoundTrip(rows: seq<DomainRow>, k: nat)
    requires k < |rows|
    requires '\t' !in rows[k].entry && '\t' !in rows[k].sourceFile
    requires '\t' !in rows[k].existence && '\t' !in rows[k].evidence
    ensures |SummaryText(rows)| == |SummaryPreamble| + |rows|
    ensures SplitOn(SummaryText(rows)[|SummaryPreamble| + k], '\t') == SummaryFields(rows[k], ColumnKindOf(rows))
  {
    var kind := ColumnKindOf(rows);
    DecNoTab(rows[k].proteinLen);
    SplitJoin(SummaryFields(rows[k], kind), '\t');
  }

  // Step 4: microdomains.fasta and microdomains_cuts.txt

  /** The first row of df_merged at or after j with the entry. */
  function FirstFrom(merged: seq<LinkedRow>, j: nat, entry: string): (r: Option<nat>)
    ensures r.Some? ==> j <= r.value < |merged|
    decreases |merged| - j
  {
    if j >= |merged| then None
    else if merged[j].seqRow.entry == entry then Some(j)
    else FirstFrom(merged, j + 1, entry)
  }

  /** The first row of df_merged with the entry: seq_row.iloc[0]. */
  function FirstSequence(merged: seq<LinkedRow>, entry: string): (r: Option<nat>)
    ensures r.Some? ==> r.value < |merged|
  {
    FirstFrom(merged, 0, entry)
  }

  /** FirstFrom finds the first row at or after j with the entry, and finds none
      exactly when no such row has it. */
  lemma {:induction false} FirstFromSpec(merged: seq<LinkedRow>, j: nat, entry: string)
    ensures var r := FirstFrom(merged, j, entry);
      && (r.Some? ==> merged[r.value].seqRow.entry == entry)
      && (r.Some? ==> forall k :: j <= k < r.value ==> merged[k].seqRow.entry != entry)
      && (r.None? <==> forall k :: j <= k < |merged| ==> merged[k].seqRow.entry != entry)
    decreases |merged| - j
  {
    if j < |merged| && merged[j].seqRow.entry != entry {
      FirstFromSpec(merged, j + 1, entry);
    }
  }

  /** FirstSequence finds the first row with the entry, and finds none exactly when
      no row has it. */
  lemma FirstSequenceSpec(merged: seq<LinkedRow>, entry: string)
    ensures var r := FirstSequence(merged, entry);
      && (r.Some? ==> merged[r.value].seqRow.entry == entry)
      && (r.Some? ==> forall j :: 0 <= j < r.value ==> merged[j].seqRow.entry != entry)
      && (r.None? <==> forall j :: 0 <= j < |merged| ==> merged[j].seqRow.entry != entry)
  {
    FirstFromSpec(merged, 0, entry);
  }

  /** The cut of a domain row: the first merged sequence of its entry, sliced with
      seq[start - 1:end] once start < end <= len(seq) holds for that sequence. */
  function CutOf(row: DomainRow, merged: seq<LinkedRow>): Option<string>
  {
    match FirstSequence(merged, row.entry)
    case None => None
    case Some(i) =>
      var s := merged[i].seqRow.sequence;
      if row.coords.Some? && row.coords.value.start < row.coords.value.end <= |s|
      then Some(PySlice(s, row.coords.value.start - 1, row.coords.value.end))
      else None
  }

  /** A cut with a 1-based start is the residues start..end of the entry's first
      sequence, both ends included. */
  lemma CutSlice(row: DomainRow, merged: seq<LinkedRow>) returns (i: nat)
    requires CutOf(row, merged).Some? && row.coords.Some? && row.coords.value.start >= 1
    ensures i < |merged| && merged[i].seqRow.entry == row.entry
    ensures forall j :: 0 <= j < i ==> merged[j].seqRow.entry != row.entry
    ensures var s := merged[i].seqRow.sequence; var c := row.coords.value;
      && c.start < c.end <= |s|
      && CutOf(row, merged).value == s[c.start - 1..c.end]
      && |CutOf(row, merged).value| == c.end - c.start + 1
  {
    FirstSequenceSpec(merged, row.entry);
    i := FirstSequence(merged, row.entry).value;
  }

  /** An annotation starting at 0 passes the check start < end, but the slice then
      starts at -1, from the end of the sequence: the cut has at most one residue,
      fewer than the Domain_Len of the row. */
  lemma CutStartZero(row: DomainRow, merged: seq<LinkedRow>)
    requires WellFormed(row) && row.coords.Some? && row.coords.value.start == 0
    requires FirstSequence(merged, row.entry).Some?
    requires row.coords.value.end <= |merged[FirstSequence(merged, row.entry).value].seqRow.sequence|
    ensures CutOf(row, merged).Some?
    ensures |CutOf(row, merged).value| <= 1 < row.coords.value.domainLen
  {
  }

  /** A row without coordinates or without a sequence gives no cut. */
  lemma NoCut(row: DomainRow, merged: seq<LinkedRow>)
    requires row.coords.None? || forall j :: 0 <= j < |merged| ==> merged[j].seqRow.entry != row.entry
    ensures CutOf(row, merged) == None
  {
    FirstSequenceSpec(merged, row.entry);
  }

  const CutsPreamble: seq<string> := [
    "# Microdomain cuts summary",
    "# Entry | Start | End | Domain_Len | Protein_Len | Protein_existence | Evidence | SourceFile",
    "# --------------------------------------------------------------",
    ""]

  function DomainCutHeader(row: DomainRow, sub: string, kind: ColumnKind): string
  {
    ">" + row.entry + " Domain:" + StartCell(row, kind) + "-" + EndCell(row, kind)
      + " Len_Domain:" + Dec(|sub|) + " Len_Protein:" + Dec(row.proteinLen)
      + " PE:" + row.existence + " Evidence:" + row.evidence
  }

  /** The seven columns written to microdomains_cuts.txt for one cut. */
  function CutFields(row: DomainRow, sub: string, kind: ColumnKind): seq<string>
  {
    [row.entry, StartCell(row, kind), EndCell(row, kind), Dec(|sub|),
     Dec(row.proteinLen), row.existence, row.sourceFile]
  }

  function CutLine(row: DomainRow, sub: string, kind: ColumnKind): string
  {
    JoinWith(CutFields(row, sub, kind), '\t')
  }

  /** The FASTA lines of one row: a header and the 70-column body, or nothing. */
  function CutRecord(row: DomainRow, merged: seq<LinkedRow>, kind: ColumnKind): seq<string>
  {
    match CutOf(row, merged)
    case None => []
    case Some(sub) => [DomainCutHeader(row, sub, kind)] + Wrap(sub)
  }

  function CutSummary(row: DomainRow, merged: seq<LinkedRow>, kind: ColumnKind): seq<string>
  {
    match CutOf(row, merged)
    case None => []
    case Some(sub) => [CutLine(row, sub, kind)]
  }

  /** The FASTA lines step 4 writes for rows[i..]. */
  function CutsFastaFrom(rows: seq<DomainRow>, i: nat, merged: seq<LinkedRow>, kind: ColumnKind): seq<string>
    decreases |rows| - i
  {
    if i >= |rows| then [] else CutRecord(rows[i], merged, kind) + CutsFastaFrom(rows, i + 1, merged, kind)
  }

  /** The summary lines step 4 writes for rows[i..]. */
  function CutsTxtFrom(rows: seq<DomainRow>, i: nat, merged: seq<LinkedRow>, kind: ColumnKind): seq<string>
    decreases |rows| - i
  {
    if i >= |rows| then [] else CutSummary(rows[i], merged, kind) + CutsTxtFrom(rows, i + 1, merged, kind)
  }

  function CutsFasta(rows: seq<DomainRow>, merged: seq<LinkedRow>, kind: ColumnKind): seq<string>
  {
    CutsFastaFrom(rows, 0, merged, kind)
  }

  function CutsTxt(rows: seq<DomainRow>, merged: seq<LinkedRow>, kind: ColumnKind): seq<string>
  {
    CutsTxtFrom(rows, 0, merged, kind)
  }

  /** The record of a cut starts with its header, its body lines join back to the cut,
      and every body line holds 1 to 70 residues. */
  lemma CutRecordBody(row: DomainRow, merged: seq<LinkedRow>, kind: ColumnKind)
    requires CutOf(row, merged).Some?
    ensures var sub := CutOf(row, merged).value; var rec := CutRecord(row, merged, kind);
      && |rec| == 1 + (|sub| + LineWidth - 1) / LineWidth
      && rec[0] == DomainCutHeader(row, sub, kind)
      && Concat(rec[1..]) == sub
      && forall k :: 1 <= k < |rec| ==> 0 < |rec[k]| <= LineWidth
  {
    var sub := CutOf(row, merged).value;
    WrapProperties(sub);
    assert CutRecord(row, merged, kind)[1..] == Wrap(sub);
  }

  lemma CutFieldsNoTab(row: DomainRow, sub: string, kind: ColumnKind)
    requires '\t' !in row.entry && '\t' !in row.existence && '\t' !in row.sourceFile
    ensures forall k :: 0 <= k < |CutFields(row, sub, kind)| ==> '\t' !in CutFields(row, sub, kind)[k]
  {
    DecNoTab(|sub|);
    DecNoTab(row.proteinLen);
  }

  /** A line of microdomains_cuts.txt splits back into the seven columns of CutFields:
      the Evidence column named by its preamble is not written, and SourceFile comes
      where the preamble names Evidence. */
  lemma CutLineFields(row: DomainRow, sub: string, kind: ColumnKind)
    requires '\t' !in row.entry && '\t' !in row.existence && '\t' !in row.sourceFile
    ensures SplitOn(CutLine(row, sub, kind), '\t') == CutFields(row, sub, kind)
    ensures |CutFields(row, sub, kind)| == 7
  {
    CutFieldsNoTab(row, sub, kind);
    SplitJoin(CutFields(row, sub, kind), '\t');
  }

  /** One iteration of the step 4 loop. */
  method WriteCut(fasta: TextFile, txt: TextFile, row: DomainRow, merged: seq<LinkedRow>, kind: ColumnKind)
    requires fasta != txt
    modifies fasta, txt
    ensures fasta.lines == old(fasta.lines) + CutRecord(row, merged, kind)
    ensures txt.lines == old(txt.lines) + CutSummary(row, merged, kind)
  {
    var cut := CutOf(row, merged);
    if cut.Some? {
      fasta.WriteLine(DomainCutHeader(row, cut.value, kind));
      WriteWrapped(fasta, cut.value);
      txt.WriteLine(CutLine(row, cut.value, kind));
    }
  }

  /** The step 4 loop over the domain rows. */
  method WriteCutRows(fasta: TextFile, txt: TextFile, rows: seq<DomainRow>, merged: seq<LinkedRow>, kind: ColumnKind)
    requires fasta != txt
    modifies fasta, txt
    ensures fasta.lines == old(fasta.lines) + CutsFasta(rows, merged, kind)
    ensures txt.lines == old(txt.lines) + CutsTxt(rows, merged, kind)
  {
    ghost var fasta0, txt0 := fasta.lines, txt.lines;
    var i := 0;
    while i < |rows|
      invariant i <= |rows|
      invariant fasta.lines + CutsFastaFrom(rows, i, merged, kind) == fasta0 + CutsFasta(rows, merged, kind)
      invariant txt.lines + CutsTxtFrom(rows, i, merged, kind) == txt0 + CutsTxt(rows, merged, kind)
    {
      ghost var fBefore, tBefore := fasta.lines, txt.lines;
      WriteCut(fasta, txt, rows[i], merged, kind);
      AppendAssoc(fBefore, CutRecord(rows[i], merged, kind), CutsFastaFrom(rows, i + 1, merged, kind));
      AppendAssoc(tBefore, CutSummary(rows[i], merged, kind), CutsTxtFrom(rows, i + 1, merged, kind));
      i := i + 1;
    }
  }

  method WriteCuts(fasta: TextFile, txt: TextFile, rows: seq<DomainRow>, merged: seq<LinkedRow>)
    requires fasta != txt
    modifies fasta, txt
    ensures fasta.lines == CutsFasta(rows, merged, ColumnKindOf(rows))
    ensures txt.lines == CutsPreamble + CutsTxt(rows, merged, ColumnKindOf(rows))
  {
    var kind := ColumnKindOf(rows);
    fasta.Truncate();
    txt.Truncate();
    WriteLines(txt, CutsPreamble);
    WriteCutRows(fasta, txt, rows, merged, kind);
  }

  // Step 5: export_fasta

  /** int(row['Start']) fails on a missing value, so export_fasta needs coordinates
      on every row. */
  predicate AllHaveCoords(rows: seq<DomainRow>)
  {
    forall k :: 0 <= k < |rows| ==> rows[k].coords.Some?
  }

  function ExportHeader(row: DomainRow, sub: string): string
    requires row.coords.Some?
  {
    ">" + row.entry + " Domain:" + Dec(row.coords.value.start) + "-" + Dec(row.coords.value.end)
      + " Len_Domain:" + Dec(|sub|) + " PE:" + row.existence + " Evidence:" + row.evidence
      + " Source:" + row.sourceFile
  }

  function ExportRecord(row: DomainRow, merged: seq<LinkedRow>): seq<string>
    requires row.coords.Some?
  {
    match CutOf(row, merged)
    case None => []
    case Some(sub) => [ExportHeader(row, sub)] + Wrap(sub)
  }

  /** The lines export_fasta writes for rows[i..]. */
  function ExportFrom(rows: seq<DomainRow>, i: nat, merged: seq<LinkedRow>): seq<string>
    requires AllHaveCoords(rows)
    decreases |rows| - i
  {
    if i >= |rows| then [] else ExportRecord(rows[i], merged) + ExportFrom(rows, i + 1, merged)
  }

  function ExportLines(rows: seq<DomainRow>, merged: seq<LinkedRow>): seq<string>
    requires AllHaveCoords(rows)
  {
    ExportFrom(rows, 0, merged)
  }

  /** export_fasta writes the same body lines as step 4; only the header differs:
      integer coordinates, no Len_Protein, and the source label at the end. */
  lemma ExportMatchesCut(row: DomainRow, merged: seq<LinkedRow>, kind: ColumnKind)
    requires row.coords.Some?
    ensures |ExportRecord(row, merged)| == |CutRecord(row, merged, kind)|
    ensures ExportRecord(row, merged) != [] ==> ExportRecord(row, merged)[1..] == CutRecord(row, merged, kind)[1..]
  {
    match CutOf(row, merged)
    case None =>
    case Some(sub) =>
      assert ExportRecord(row, merged)[1..] == Wrap(sub);
      assert CutRecord(row, merged, kind)[1..] == Wrap(sub);
  }

  /** One iteration of the loop of export_fasta. */
  method ExportOne(f: TextFile, row: DomainRow, merged: seq<LinkedRow>)
    requires row.coords.Some?
    modifies f
    ensures f.lines == old(f.lines) + ExportRecord(row, merged)
  {
    var cut := CutOf(row, merged);
    if cut.Some? {
      f.WriteLine(ExportHeader(row, cut.value));
      WriteWrapped(f, cut.value);
    }
  }

  /** The loop of export_fasta. */
  method ExportRows(f: TextFile, rows: seq<DomainRow>, merged: seq<LinkedRow>)
    requires AllHaveCoords(rows)
    modifies f
    ensures f.lines == old(f.lines) + ExportLines(rows, merged)
  {
    ghost var f0 := f.lines;
    var i := 0;
    while i < |rows|
      invariant i <= |rows|
      invariant f.lines + ExportFrom(rows, i, merged) == f0 + ExportLines(rows, merged)
    {
      ghost var before := f.lines;
      ExportOne(f, rows[i], merged);
      AppendAssoc(before, ExportRecord(rows[i], merged), ExportFrom(rows, i + 1, merged));
      i := i + 1;
    }
  }

  method ExportFasta(f: TextFile, rows: seq<DomainRow>, merged: seq<LinkedRow>)
    requires AllHaveCoords(rows)
    modifies f
    ensures f.lines == ExportLines(rows, merged)
  {
    f.Truncate();
    ExportRows(f, rows, merged);
  }
}
