/** The tables of domains.py before domain extraction: one row per FASTA record
    (parse_fasta_to_df), the concatenation of the loaded FASTA tables, and the
    left merge with the annotation table on Entry. */
module Records {
  import opened Wrappers
  import opened Text
  import opened UniProtHeader

  /** A record as the FASTA reader yields it: the first token of the header line,
      the whole header line after '>', and the residues. */
  datatype FastaRecord = FastaRecord(id: string, description: string, sequence: string)

  /** One row of the table built by parse_fasta_to_df. */
  datatype SequenceRow = SequenceRow(
    sourceFile: string,
    rawHeader: string,
    entry: string,
    entryName: string,
    description: string,
    length: nat,
    sequence: string)

  /** The annotation columns kept from the spreadsheet; an empty cell is None. */
  datatype AnnotationRow = AnnotationRow(
    entry: string,
    domainFt: Option<string>,
    existence: Option<string>,
    evidence: Option<string>)

  /** A row of the left merge: the sequence row and the annotation cells,
      all None when no annotation row has the same Entry. */
  datatype LinkedRow = LinkedRow(
    seqRow: SequenceRow,
    domainFt: Option<string>,
    existence: Option<string>,
    evidence: Option<string>)

  /** A FASTA file of the configured list: its label, and its records when the file exists. */
  datatype Source = Source(tag: string, records: Option<seq<FastaRecord>>)

  /** The row built for one record. A UniProt header gives the accession, the entry
      name and the description; any other header gives the record id for both and the
      stripped header as the description. */
  function ParseRecord(rec: FastaRecord, tag: string): (row: SequenceRow)
    ensures row.sourceFile == tag && row.rawHeader == Strip(rec.description)
    ensures row.sequence == rec.sequence && row.length == |rec.sequence|
  {
    var raw := Strip(rec.description);
    match MatchHeader(raw)
    case Some(h) => SequenceRow(tag, raw, h.acc, h.entryName, h.desc, |rec.sequence|, rec.sequence)
    case None => SequenceRow(tag, raw, rec.id, rec.id, raw, |rec.sequence|, rec.sequence)
  }

  /** A header of the UniProt shape `db|ACC|NAME description`, or `ACC|NAME
      description` without the database prefix, gives its accession, entry name
      and description. */
  lemma ParseRecordUniProt(rec: FastaRecord, tag: string,
                           pre: string, acc: string, id: string, ws: string, desc: string)
    requires HeaderShape(Strip(rec.description), pre, acc, id, ws, desc, [])
    requires (ws == [] && desc == []) || (ws != [] && !IsIdChar(ws[0]))
    requires desc == [] || !IsSpace(desc[0])
    ensures ParseRecord(rec, tag).entry == acc
    ensures ParseRecord(rec, tag).entryName == id
    ensures ParseRecord(rec, tag).description == desc
  {
    MatchHeaderExact(Strip(rec.description), pre, acc, id, ws, desc, []);
  }

  /** A header that no decomposition of the pattern fits gives the record id as
      Entry and EntryName and the stripped header as Description. */
  lemma ParseRecordFallback(rec: FastaRecord, tag: string)
    requires forall pre, acc, id, ws, desc, nl ::
      !HeaderShape(Strip(rec.description), pre, acc, id, ws, desc, nl)
    ensures ParseRecord(rec, tag).entry == rec.id
    ensures ParseRecord(rec, tag).entryName == rec.id
    ensures ParseRecord(rec, tag).description == Strip(rec.description)
  {
    var raw := Strip(rec.description);
    if MatchHeader(raw).Some? {
      var pre, ws, nl := MatchHeaderSound(raw);
      assert false;
    }
  }

  /** The table of one FASTA file, row i built from record i. */
  function ParseTable(records: seq<FastaRecord>, tag: string): (rows: seq<SequenceRow>)
    ensures |rows| == |records|
  {
    if records == [] then []
    else ParseTable(records[..|records| - 1], tag) + [ParseRecord(records[|records| - 1], tag)]
  }

  /** Row i of the table is the row of record i. */
  lemma {:induction false} ParseTableAt(records: seq<FastaRecord>, tag: string, i: nat)
    requires i < |records|
    ensures ParseTable(records, tag)[i] == ParseRecord(records[i], tag)
  {
    if i < |records| - 1 {
      ParseTableAt(records[..|records| - 1], tag, i);
    }
  }

  /** parse_fasta_to_df: the loop appending one row per record. */
  method ParseFastaToDf(records: seq<FastaRecord>, tag: string) returns (rows: seq<SequenceRow>)
    ensures rows == ParseTable(records, tag)
  {
    rows := [];
    var n := 0;
    while n < |records|
      invariant 0 <= n <= |records|
      invariant rows == ParseTable(records[..n], tag)
    {
      assert records[..n + 1][..n] == records[..n];
      rows := rows + [ParseRecord(records[n], tag)];
      n := n + 1;
    }
    assert records[..n] == records;
  }

  /** The parsed table of each configured file, None for a file that does not exist. */
  function TablesOf(sources: seq<Source>): (r: seq<Option<seq<SequenceRow>>>)
    ensures |r| == |sources|
  {
    if sources == [] then []
    else
      var last := sources[|sources| - 1];
      TablesOf(sources[..|sources| - 1])
        + [if last.records.Some? then Some(ParseTable(last.records.value, last.tag)) else None]
  }

  lemma {:induction false} TablesOfAt(sources: seq<Source>, k: nat)
    requires k < |sources|
    ensures TablesOf(sources)[k] ==
      if sources[k].records.Some? then Some(ParseTable(sources[k].records.value, sources[k].tag)) else None
  {
    if k < |sources| - 1 {
      TablesOfAt(sources[..|sources| - 1], k);
    }
  }

  /** pd.concat of the tables that exist, in order; None when there is none. */
  function ConcatTables(tables: seq<Option<seq<SequenceRow>>>): Option<seq<SequenceRow>>
  {
    if tables == [] then None
    else
      var front := ConcatTables(tables[..|tables| - 1]);
      match tables[|tables| - 1]
      case None => front
      case Some(rows) =>
        match front
        case None => Some(rows)
        case Some(f) => Some(f + rows)
  }

  /** The concatenation of the tables of the files that exist, in the configured
      order; None when no file exists, where pd.concat has nothing to concatenate. */
  function ConcatSources(sources: seq<Source>): Option<seq<SequenceRow>>
  {
    ConcatTables(TablesOf(sources))
  }

  /** There is nothing to concatenate exactly when no table exists. */
  lemma {:induction false} ConcatTablesNone(tables: seq<Option<seq<SequenceRow>>>)
    ensures ConcatTables(tables).None? <==> forall k :: 0 <= k < |tables| ==> tables[k].None?
  {
    if tables != [] {
      var front := tables[..|tables| - 1];
      ConcatTablesNone(front);
      assert forall k :: 0 <= k < |front| ==> front[k] == tables[k];
    }
  }

  /** There is nothing to concatenate exactly when no file exists. */
  lemma ConcatSourcesNone(sources: seq<Source>)
    ensures ConcatSources(sources).None? <==> forall k :: 0 <= k < |sources| ==> sources[k].records.None?
  {
    ConcatTablesNone(TablesOf(sources));
    forall k | 0 <= k < |sources| ensures TablesOf(sources)[k].None? <==> sources[k].records.None? {
      TablesOfAt(sources, k);
    }
  }

  /** Row i of every existing table is in the concatenation. */
  lemma {:induction false} ConcatTablesKeeps(tables: seq<Option<seq<SequenceRow>>>, k: nat, i: nat)
    returns (j: nat)
    requires k < |tables| && tables[k].Some? && i < |tables[k].value|
    ensures ConcatTables(tables).Some? && j < |ConcatTables(tables).value|
    ensures ConcatTables(tables).value[j] == tables[k].value[i]
  {
    var front := tables[..|tables| - 1];
    var f := ConcatTables(front);
    if k < |tables| - 1 {
      assert front[k] == tables[k];
      j := ConcatTablesKeeps(front, k, i);
    } else {
      j := if f.Some? then |f.value| + i else i;
    }
  }

  /** Every record of every loaded file has its row in the concatenation. */
  lemma ConcatSourcesKeeps(sources: seq<Source>, k: nat, i: nat) returns (j: nat)
    requires k < |sources| && sources[k].records.Some? && i < |sources[k].records.value|
    ensures ConcatSources(sources).Some? && j < |ConcatSources(sources).value|
    ensures ConcatSources(sources).value[j] == ParseRecord(sources[k].records.value[i], sources[k].tag)
  {
    TablesOfAt(sources, k);
    j := ConcatTablesKeeps(TablesOf(sources), k, i);
    ParseTableAt(sources[k].records.value, sources[k].tag, i);
  }

  /** Every row of the concatenation is a row of some existing table. */
  lemma {:induction false} ConcatTablesRows(tables: seq<Option<seq<SequenceRow>>>, j: nat)
    returns (k: nat, i: nat)
    requires ConcatTables(tables).Some? && j < |ConcatTables(tables).value|
    ensures k < |tables| && tables[k].Some? && i < |tables[k].value|
    ensures ConcatTables(tables).value[j] == tables[k].value[i]
  {
    var front := tables[..|tables| - 1];
    var f := ConcatTables(front);
    if tables[|tables| - 1].None? || (f.Some? && j < |f.value|) {
      k, i := ConcatTablesRows(front, j);
      assert front[k] == tables[k];
    } else {
      k := |tables| - 1;
      i := if f.Some? then j - |f.value| else j;
    }
  }

  /** Every row of the concatenation is the row of some record of some loaded file,
      under that file's label. */
  lemma ConcatSourcesRows(sources: seq<Source>, j: nat) returns (k: nat, i: nat)
    requires ConcatSources(sources).Some? && j < |ConcatSources(sources).value|
    ensures k < |sources| && sources[k].records.Some? && i < |sources[k].records.value|
    ensures ConcatSources(sources).value[j] == ParseRecord(sources[k].records.value[i], sources[k].tag)
  {
    k, i := ConcatTablesRows(TablesOf(sources), j);
    TablesOfAt(sources, k);
    ParseTableAt(sources[k].records.value, sources[k].tag, i);
  }

  /** The annotation rows with a given Entry, in table order. */
  function Matching(ann: seq<AnnotationRow>, entry: string): (r: seq<AnnotationRow>)
    ensures forall k :: 0 <= k < |r| ==> r[k] in ann && r[k].entry == entry
    ensures forall a :: a in ann && a.entry == entry ==> a in r
    ensures r == [] <==> forall a :: a in ann ==> a.entry != entry
  {
    if ann == [] then []
    else
      var front := Matching(ann[..|ann| - 1], entry);
      var last := ann[|ann| - 1];
      assert forall a :: a in ann ==> a in ann[..|ann| - 1] || a == last;
      if last.entry == entry then front + [last] else front
  }

  /** The merged rows for one sequence row: one per matching annotation row, or one
      row with empty annotation cells when there is none. */
  function JoinOne(row: SequenceRow, ann: seq<AnnotationRow>): (r: seq<LinkedRow>)
    ensures |r| >= 1
    ensures forall k :: 0 <= k < |r| ==> r[k].seqRow == row
    ensures (forall a :: a in ann ==> a.entry != row.entry) ==> r == [LinkedRow(row, None, None, None)]
    ensures Matching(ann, row.entry) != [] ==>
      |r| == |Matching(ann, row.entry)| &&
      forall k :: 0 <= k < |r| ==> var a := Matching(ann, row.entry)[k];
        r[k] == LinkedRow(row, a.domainFt, a.existence, a.evidence)
  {
    var m := Matching(ann, row.entry);
    if m == [] then [LinkedRow(row, None, None, None)]
    else seq(|m|, k requires 0 <= k < |m| => LinkedRow(row, m[k].domainFt, m[k].existence, m[k].evidence))
  }

  /** pd.merge(left, ann, on='Entry', how='left'): left rows in order, each expanded
      to its matching annotation rows. */
  function LeftJoin(left: seq<SequenceRow>, ann: seq<AnnotationRow>): (r: seq<LinkedRow>)
    ensures |r| >= |left|
    ensures forall k :: 0 <= k < |r| ==> r[k].seqRow in left
  {
    if left == [] then []
    else
      var front := LeftJoin(left[..|left| - 1], ann);
      var last := JoinOne(left[|left| - 1], ann);
      assert forall k :: 0 <= k < |front| ==> (front + last)[k] == front[k];
      assert forall k :: |front| <= k < |front| + |last| ==> (front + last)[k] == last[k - |front|];
      front + last
  }

  /** Each Entry occurs at most once in the annotation table. */
  predicate UniqueEntries(ann: seq<AnnotationRow>)
  {
    forall i, j :: 0 <= i < j < |ann| ==> ann[i].entry != ann[j].entry
  }

  /** With at most one annotation row per Entry, a matching row is the only one. */
  lemma {:induction false} MatchingUnique(ann: seq<AnnotationRow>, entry: string)
    requires UniqueEntries(ann)
    ensures |Matching(ann, entry)| <= 1
  {
    if ann != [] {
      var front := ann[..|ann| - 1];
      assert UniqueEntries(front);
      MatchingUnique(front, entry);
      if ann[|ann| - 1].entry == entry && Matching(front, entry) != [] {
        assert false;
      }
    }
  }

  /** Every sequence row survives the merge: some merged row carries it, and its
      annotation cells are those of an annotation row with the same Entry, or all
      empty when there is none. Rows of different sources that share an Entry stay
      separate rows. */
  lemma {:induction false} LeftJoinKeepsRow(left: seq<SequenceRow>, ann: seq<AnnotationRow>, i: nat)
    returns (j: nat)
    requires i < |left|
    ensures j < |LeftJoin(left, ann)| && LeftJoin(left, ann)[j].seqRow == left[i]
    ensures var m := LeftJoin(left, ann)[j];
      if Matching(ann, left[i].entry) == [] then m == LinkedRow(left[i], None, None, None)
      else (exists a :: a in ann && a.entry == left[i].entry &&
              m == LinkedRow(left[i], a.domainFt, a.existence, a.evidence))
    decreases |left|
  {
    var front := left[..|left| - 1];
    var f := LeftJoin(front, ann);
    var last := JoinOne(left[|left| - 1], ann);
    assert LeftJoin(left, ann) == f + last;
    if i < |left| - 1 {
      assert front[i] == left[i];
      j := LeftJoinKeepsRow(front, ann, i);
    } else {
      j := |f|;
      assert LeftJoin(left, ann)[j] == last[0];
      if Matching(ann, left[i].entry) != [] {
        assert Matching(ann, left[i].entry)[0] in Matching(ann, left[i].entry);
      }
    }
  }

  /** The merged row of a sequence row whose Entry has at most one annotation row:
      the cells of that row, or empty cells when there is none. */
  function JoinedRow(row: SequenceRow, ann: seq<AnnotationRow>): LinkedRow
  {
    var m := Matching(ann, row.entry);
    if m == [] then LinkedRow(row, None, None, None)
    else LinkedRow(row, m[0].domainFt, m[0].existence, m[0].evidence)
  }

  /** With at most one annotation row per Entry a sequence row joins to one row. */
  lemma JoinOneUnique(row: SequenceRow, ann: seq<AnnotationRow>)
    requires UniqueEntries(ann)
    ensures JoinOne(row, ann) == [JoinedRow(row, ann)]
  {
    MatchingUnique(ann, row.entry);
  }

  /** With at most one annotation row per Entry the merge has exactly one row per
      sequence row, in the same order, carrying the cells of its annotation row. */
  lemma {:induction false} LeftJoinUnique(left: seq<SequenceRow>, ann: seq<AnnotationRow>)
    requires UniqueEntries(ann)
    ensures |LeftJoin(left, ann)| == |left|
    ensures forall i :: 0 <= i < |left| ==> LeftJoin(left, ann)[i] == JoinedRow(left[i], ann)
  {
    if left != [] {
      var front := left[..|left| - 1];
      LeftJoinUnique(front, ann);
      JoinOneUnique(left[|left| - 1], ann);
      var f := LeftJoin(front, ann);
      assert LeftJoin(left, ann) == f + [JoinedRow(left[|left| - 1], ann)];
      forall i | 0 <= i < |left| - 1
        ensures LeftJoin(left, ann)[i] == JoinedRow(left[i], ann)
      {
        assert front[i] == left[i];
      }
    }
  }
}
