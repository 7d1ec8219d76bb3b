/** The whole domains.py script, steps 1 to 5, over given inputs: the FASTA files
    that exist (as parsed records) and the annotation spreadsheet (as rows). */
module Pipeline {
  import opened Wrappers
  import opened Text
  import opened Files
  import opened Records
  import opened Extraction
  import opened Dedup
  import opened Partition
  import opened Export

  /** The two ways the script stops early: the spreadsheet is missing (its
      listing branch names an undefined directory variable and raises), or no
      FASTA file was found (pd.concat of an empty collection raises). */
  datatype PipelineError = MissingAnnotationDataset | NoSequenceTables

  /** Every table the script computes and the lines of every text file it writes. */
  datatype Outputs = Outputs(
    merged: seq<LinkedRow>,
    domains: seq<DomainRow>,
    summary: seq<string>,
    cutsFasta: seq<string>,
    cutsTxt: seq<string>,
    short: seq<DomainRow>,
    long: seq<DomainRow>,
    shortFasta: seq<string>,
    longFasta: seq<string>)

  /** Both partitions satisfy export_fasta's need for coordinates. */
  lemma PartitionsHaveCoords(domains: seq<DomainRow>)
    ensures AllHaveCoords(ShortDomains(domains)) && AllHaveCoords(LongDomains(domains))
  {
    var s := ShortDomains(domains);
    var l := LongDomains(domains);
    assert forall k :: 0 <= k < |s| ==> s[k] in s;
    assert forall k :: 0 <= k < |l| ==> l[k] in l;
  }

  /** The script on the configured FASTA files and the spreadsheet's rows, None
      when the spreadsheet file does not exist. */
  function RunPipeline(sources: seq<Source>, annotation: Option<seq<AnnotationRow>>): Result<Outputs, PipelineError>
  {
    if annotation.None? then Failure(MissingAnnotationDataset) else
    match ConcatSources(sources)
    case None => Failure(NoSequenceTables)
    case Some(all) =>
      var merged := LeftJoin(all, annotation.value);
      var domains := DropDuplicates(ExtractAll(merged));
      var kind := ColumnKindOf(domains);
      var short := ShortDomains(domains);
      var long := LongDomains(domains);
      PartitionsHaveCoords(domains);
      Success(Outputs(merged, domains, SummaryText(domains),
        CutsFasta(domains, merged, kind), CutsPreamble + CutsTxt(domains, merged, kind),
        short, long, ExportLines(short, merged), ExportLines(long, merged)))
  }

  /** The run fails exactly when the spreadsheet is missing or none of the FASTA
      files exists, and a missing spreadsheet is reported first. */
  lemma PipelineFails(sources: seq<Source>, annotation: Option<seq<AnnotationRow>>)
    ensures RunPipeline(sources, annotation) == Failure(MissingAnnotationDataset) <==> annotation.None?
    ensures RunPipeline(sources, annotation) == Failure(NoSequenceTables) <==>
      annotation.Some? && forall k :: 0 <= k < |sources| ==> sources[k].records.None?
    ensures RunPipeline(sources, annotation).Failure? <==>
      annotation.None? || forall k :: 0 <= k < |sources| ==> sources[k].records.None?
  {
    ConcatSourcesNone(sources);
  }

  /** Whether a table has sentinels, and whether it has rows with coordinates,
      shows in its set of keys. */
  lemma SentinelKeys(rows: seq<DomainRow>)
    ensures HasSentinel(rows) <==> exists q :: q in KeysOf(rows) && q.start.None?
    ensures HasCoords(rows) <==> exists q :: q in KeysOf(rows) && q.start.Some?
  {
    if HasSentinel(rows) {
      var k :| 0 <= k < |rows| && rows[k].coords.None?;
      assert KeyOf(rows[k]) in KeysOf(rows);
    }
    if HasCoords(rows) {
      var k :| 0 <= k < |rows| && rows[k].coords.Some?;
      assert KeyOf(rows[k]) in KeysOf(rows);
    }
    if exists q :: q in KeysOf(rows) && q.start.None? {
      var q :| q in KeysOf(rows) && q.start.None?;
      var r :| r in rows && KeyOf(r) == q;
      var k :| 0 <= k < |rows| && rows[k] == r;
    }
    if exists q :: q in KeysOf(rows) && q.start.Some? {
      var q :| q in KeysOf(rows) && q.start.Some?;
      var r :| r in rows && KeyOf(r) == q;
      var k :| 0 <= k < |rows| && rows[k] == r;
    }
  }

  /** pandas fixes the dtype of Start, End and Domain_Len when it builds
      df_domains from the extracted rows; drop_duplicates keeps it, and the kind
      computed from the deduplicated rows is that same dtype. */
  lemma DedupKeepsColumnKind(rows: seq<DomainRow>)
    ensures ColumnKindOf(DropDuplicates(rows)) == ColumnKindOf(rows)
  {
    SentinelKeys(rows);
    SentinelKeys(DropDuplicates(rows));
  }

  /** What a successful run guarantees about its tables: the domain rows are well
      formed, each (Entry, Start, End) occurs once, the deduplicated table keeps every
      key of the extracted one, and the two partitions split the rows that have
      coordinates. */
  lemma PipelineGuarantees(sources: seq<Source>, annotation: Option<seq<AnnotationRow>>)
    requires RunPipeline(sources, annotation).Success?
    ensures var o := RunPipeline(sources, annotation).value;
      && (forall k :: 0 <= k < |o.domains| ==> WellFormed(o.domains[k]))
      && DistinctKeys(o.domains)
      && KeysOf(o.domains) == KeysOf(ExtractAll(o.merged))
      && multiset(o.short) + multiset(o.long) == multiset(WithCoords(o.domains))
      && |o.summary| == |SummaryPreamble| + |o.domains|
      && ColumnKindOf(o.domains) == ColumnKindOf(ExtractAll(o.merged))
  {
    var o := RunPipeline(sources, annotation).value;
    var all := ExtractAll(o.merged);
    DedupKeepsColumnKind(all);
    forall k | 0 <= k < |o.domains| ensures WellFormed(o.domains[k]) {
      assert o.domains[k] in all;
    }
    PartitionCovers(o.domains);
  }

  /** Every sequence row of every loaded file reaches the merged table. */
  lemma PipelineKeepsSequences(sources: seq<Source>, annotation: Option<seq<AnnotationRow>>, k: nat, i: nat)
    requires annotation.Some?
    requires k < |sources| && sources[k].records.Some? && i < |sources[k].records.value|
    ensures RunPipeline(sources, annotation).Success?
    ensures exists j :: (0 <= j < |RunPipeline(sources, annotation).value.merged| &&
      RunPipeline(sources, annotation).value.merged[j].seqRow == ParseRecord(sources[k].records.value[i], sources[k].tag))
  {
    var j0 := ConcatSourcesKeeps(sources, k, i);
    var all := ConcatSources(sources).value;
    var j := LeftJoinKeepsRow(all, annotation.value, j0);
    assert RunPipeline(sources, annotation).value.merged == LeftJoin(all, annotation.value);
  }

  /** The loop over the FASTA paths: a parsed table for every file that exists. */
  method LoadTables(sources: seq<Source>) returns (r: Option<seq<SequenceRow>>)
    ensures r == ConcatSources(sources)
  {
    r := None;
    var n := 0;
    while n < |sources|
      invariant n <= |sources|
      invariant r == ConcatSources(sources[..n])
    {
      assert sources[..n + 1][..n] == sources[..n];
      var src := sources[n];
      if src.records.Some? {
        var rows := ParseFastaToDf(src.records.value, src.tag);
        r := if r.Some? then Some(r.value + rows) else Some(rows);
      }
      n := n + 1;
    }
    assert sources[..n] == sources;
  }

  /** The script writing its five text files; on a failure nothing is written. */
  method RunScript(sources: seq<Source>, annotation: Option<seq<AnnotationRow>>,
                   summary: TextFile, cutsFasta: TextFile, cutsTxt: TextFile,
                   shortFasta: TextFile, longFasta: TextFile)
    returns (r: Result<Outputs, PipelineError>)
    requires cutsFasta != cutsTxt
    requires summary != cutsFasta && summary != cutsTxt && summary != shortFasta && summary != longFasta
    requires shortFasta != cutsFasta && shortFasta != cutsTxt && shortFasta != longFasta
    requires longFasta != cutsFasta && longFasta != cutsTxt
    modifies summary, cutsFasta, cutsTxt, shortFasta, longFasta
    ensures r == RunPipeline(sources, annotation)
    ensures r.Failure? ==> unchanged(summary, cutsFasta, cutsTxt, shortFasta, longFasta)
    ensures r.Success? ==>
      && summary.lines == r.value.summary
      && cutsFasta.lines == r.value.cutsFasta
      && cutsTxt.lines == r.value.cutsTxt
      && shortFasta.lines == r.value.shortFasta
      && longFasta.lines == r.value.longFasta
  {
    var all := LoadTables(sources);
    if annotation.None? {
      return Failure(MissingAnnotationDataset);
    }
    if all.None? {
      return Failure(NoSequenceTables);
    }
    var merged := LeftJoin(all.value, annotation.value);
    var extracted := ExtractDomains(merged);
    var domains := DropDuplicates(extracted);
    WriteSummary(summary, domains);
    WriteCuts(cutsFasta, cutsTxt, domains, merged);
    var short := ShortDomains(domains);
    var long := LongDomains(domains);
    PartitionsHaveCoords(domains);
    ExportFasta(shortFasta, short, merged);
    ExportFasta(longFasta, long, merged);
    r := RunPipeline(sources, annotation);
  }
}
