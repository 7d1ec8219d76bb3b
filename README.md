# Microdomain extraction for C. elegans secreted proteins

This project is a Dafny model of three Python scripts. Together they turn UniProt FASTA
exports and a UniProt annotation spreadsheet into a table of protein domains and the
FASTA cuts of those domains. The properties stated about each step are proved.

- `domains.py` runs in five steps:
  1. It reads the configured FASTA files and the annotation spreadsheet. Each record
     becomes a row, and its UniProt header `db|ACC|NAME description` is split with a
     regular expression.
  2. It concatenates the tables, left-merges them with the spreadsheet on `Entry`, and
     extracts every `DOMAIN start..end` annotation that fits its protein. A protein
     without annotations gets a sentinel row with missing coordinates.
  3. It drops duplicate `(Entry, Start, End)` rows and writes a tab-separated summary.
  4. It cuts every domain out of its protein's sequence. The cuts go to a FASTA file
     wrapped at 70 columns, plus a summary text file.
  5. It splits the domains at 100 residues into short and long, and writes one FASTA
     file for each part.
- `estructuras.py` reloads the short and long FASTA files as `{entry: sequence}` maps.
  Its interactive loop then decides, for each typed entry, whether to submit the sequence
  for structure prediction.
- `cut_domains.py` validates one cut typed by the user. It builds the cut's header and
  appends the cut to a FASTA file.

How the model is built:

- Pure steps are functions over datatypes.
- Loops that append to a list or write lines become methods with loop invariants. Each
  is proved equal to the function that specifies it.
- An open text file is a `TextFile` object whose `lines` field the write methods extend.
- The regular expressions are hand-written greedy scanners. They are proved sound and
  complete against a declarative description of the strings each pattern matches.

Modules:

| module | what it holds |
|---|---|
| `Text` | the character classes, `strip()`, `upper()`, decimal rendering, Python slicing, splitting on tabs |
| `FastaWrap` | the 70-column wrapper |
| `Files` | the text files and their writes |
| `UniProtHeader` | the header pattern of `domains.py` |
| `Records` | the FASTA records, `parse_fasta_to_df`, the concatenation and the left merge |
| `DomainScan` | `re.findall` for the `DOMAIN` pattern |
| `Extraction` | the extraction loop |
| `Dedup` | `drop_duplicates` |
| `Partition` | the short and long split |
| `Export` | the three writers |
| `Pipeline` | the whole of `domains.py` |
| `Structures` | `estructuras.py` |
| `CutDomains` | `cut_domains.py` |

Behaviour of the source that the model keeps as written:

- **Seven columns where eight are announced.** The preamble of `microdomains_cuts.txt`
  announces eight columns. Each line then has seven, with Evidence missing
  (`Export.CutLineFields`).
- **Start 0 is accepted and mis-sliced.** A `DOMAIN 0..e` annotation passes the check
  `start < end <= len(seq)`. Its slice `seq[-1:end]` then holds at most one residue,
  while its `Domain_Len` counts `e + 1` (`Export.CutStartZero`).
- **Two different acceptance rules.** The interactive cutter accepts `1 <= start <= end`.
  The pipeline accepts `start < end`. So a one-residue cut passes only the cutter, and a
  start of 0 passes only the pipeline (`CutDomains.AcceptanceComparedWithPipeline`).
- **Three renderings of coordinates.** pandas fixes the dtype of the Start, End and
  Domain_Len columns when it builds df_domains (domains.py:138):
  - When every row has coordinates, the columns are integers and print `10`.
  - When some rows are sentinels and some are not, the columns are floats. The step 3
    summary and the step 4 header then print `10.0`, and a missing value prints `nan`.
  - When every row is a sentinel, the columns hold only `None`, and the summary prints
    `None`.
  `export_fasta` casts to `int` first, so its headers print `10`. The model renders all
  three ways (`Export.ColumnKindOf`, `Export.NumCell`, `Export.StartCellRendering`).

## Model

| member | source | states |
|---|---|---|
| Text.RunEndProps | domains.py:20 | a greedy character-class repetition consumes only characters of the class and stops at the end or at a character outside it |
| Text.RunEndExact | domains.py:20 | the end of a greedy repetition is the unique offset with those two properties |
| Text.TrimLeft | estructuras.py:56 | the result is a suffix of the input, only whitespace was removed, and it does not start with whitespace |
| Text.TrimRight | estructuras.py:56 | the result is a prefix of the input, only whitespace was removed, and it does not end with whitespace |
| Text.StripSlice | estructuras.py:56 | `str.strip()` returns a slice of the line with only whitespace removed before and after it and no whitespace left at either end |
| Text.StripLeadingSpace | estructuras.py:64 | whitespace in front of a string does not change what `strip()` returns |
| Text.KeepAlpha | estructuras.py:68 | the cleaned line keeps only letters and is no longer than the line |
| Text.KeepAlphaAppend | estructuras.py:68 | cleaning two pieces and joining them is cleaning the joined line |
| Text.KeepAlphaLetters | estructuras.py:68 | a line made only of letters is kept whole |
| Text.KeepAlphaNoLetters | estructuras.py:68 | a line without letters cleans to the empty string |
| Text.KeepAlphaInsert | estructuras.py:68 | one character inside a line is kept exactly when it is a letter, and the rest is cleaned around it |
| Text.DecRoundTrip | domains.py:111 | `int()` of the decimal text of n gives back n |
| Text.PySlice | domains.py:227 | a Python slice within bounds is the subsequence between the two offsets |
| Text.SplitJoin | domains.py:175-184 | joining tab-free fields with tabs and splitting at the tabs gives the fields back |
| FastaWrap.WrapProperties | domains.py:235-236 | the 70-column lines join back to the sequence; there are ceil(n/70) of them, none is empty, and all but the last hold exactly 70 residues |
| Files.TextFile.constructor | domains.py:169 | a new file handle starts with no lines |
| Files.TextFile.Truncate | domains.py:169 | opening with mode "w" empties the file |
| Files.TextFile.WriteLine | domains.py:170 | a write appends the line and nothing else |
| Files.WriteWrapped | domains.py:235-236 | the wrapping loop appends exactly the wrapped lines of the sequence |
| UniProtHeader.MatchHeaderSound | domains.py:20 | whatever the matcher returns is a split of the header that the pattern allows: an optional prefix of word characters ended by a bar, an accession without bar, `>` or whitespace, a bar, an entry name without space, tab or bar, whitespace, and a description without line feeds; the entry name is as long as possible, so the text after it does not start with an entry-name character |
| UniProtHeader.MatchHeaderComplete | domains.py:20 | every header the pattern allows is matched, with the same accession whenever it has a prefix |
| UniProtHeader.MatchHeaderExact | domains.py:20 | for a header, with or without the word-and-bar prefix, whose entry name ends at a space or tab and whose description starts with a non-space, the match yields exactly that accession, entry name and description |
| UniProtHeader.MatchFromSound | domains.py:20 | the pattern tried after the prefix splits the header the way the pattern allows; the entry name is as long as possible and the description it captures does not start with whitespace |
| UniProtHeader.MatchFromComplete | domains.py:20 | any split at an offset is found by the matcher there, with its accession |
| UniProtHeader.SwissProtExample | domains.py:20-34 | the Swiss-Prot header with database sp, accession Q9XYZ1, entry name EXAMPLE_HUMAN and description "Example protein", separated by bars, gives accession Q9XYZ1, entry name EXAMPLE_HUMAN and description "Example protein" |
| UniProtHeader.PrefixBacktrackExample | domains.py:20 | when the rest fails after a prefix of word characters and a bar, the regex gives the prefix back: `Q9`, bar, `X d` has accession Q9, entry name X and description d |
| Records.ParseRecord | domains.py:22-44 | each row carries the file label, the stripped header, the sequence and its length |
| Records.ParseRecordUniProt | domains.py:27-31 | a UniProt-shaped header, with or without the database prefix, gives the row its accession, entry name and description |
| Records.ParseRecordFallback | domains.py:32-34 | a header the pattern does not fit gives the record id as Entry and EntryName, and the whole header as Description |
| Records.ParseTableAt | domains.py:24-45 | row i of a file's table is the row of record i |
| Records.ParseFastaToDf | domains.py:22-45 | the loop builds one row per record, in order, the table ParseTable specifies |
| Records.ConcatSourcesNone | domains.py:49-54 | there is nothing to concatenate exactly when none of the configured files exists |
| Records.ConcatSourcesKeeps | domains.py:86 | every record of every loaded file has its row in the concatenated table |
| Records.ConcatSourcesRows | domains.py:86 | every row of the concatenated table is the row of a record of some loaded file |
| Records.Matching | domains.py:89-95 | the annotation rows kept for an entry are exactly the rows with that Entry |
| Records.JoinOne | domains.py:89-95 | a sequence row gives at least one merged row, each carrying it; with no annotation row it gets empty cells; otherwise one merged row per annotation row |
| Records.LeftJoin | domains.py:89-95 | the left merge has at least as many rows as the left table, and each of its rows carries a left row |
| Records.LeftJoinKeepsRow | domains.py:89-95 | every sequence row appears in the merge, with the cells of a matching annotation row or empty cells when none exists |
| Records.LeftJoinUnique | domains.py:89-95 | when each Entry occurs at most once in the spreadsheet, the merge keeps the left table's length and order, one merged row per sequence row |
| Records.MatchingUnique | domains.py:91 | with unique Entries, at most one annotation row matches |
| DomainScan.MatchAtSound | domains.py:107 | a match found at an offset is `DOMAIN`, a non-empty whitespace run, digits, `..`, and digits, with the numbers' values |
| DomainScan.MatchAtComplete | domains.py:107 | every occurrence of the pattern at an offset is the match found there |
| DomainScan.FindAllSound | domains.py:107 | every hit of `re.findall` is a match of the pattern |
| DomainScan.FindAllOrdered | domains.py:107 | the hits are in text order and do not overlap |
| DomainScan.FindAllComplete | domains.py:107 | every occurrence of the pattern is a hit, or starts inside an earlier hit |
| DomainScan.NoKeywordNoHit | domains.py:104-107 | a text without the letter D holds no match |
| DomainScan.NanNoHit | domains.py:104-107 | the text `nan` of an empty cell holds no match |
| DomainScan.ScanCovers | domains.py:107 | the left-to-right scan misses no match: each one is a hit or lies inside an earlier hit |
| DomainScan.FieldRoundTrip | domains.py:107 | scanning a field written as `DOMAIN a..b; DOMAIN c..d; ...` gives back exactly its list of spans, in order |
| Extraction.CandidateRows | domains.py:110-123 | every row built has coordinates, is well formed, copies the protein's Entry, length, source, existence and evidence, and no row is built when no candidate is accepted |
| Extraction.CandidateRowsSound | domains.py:110-123 | every domain row comes from an accepted candidate with the same coordinates |
| Extraction.CandidateRowsComplete | domains.py:110-123 | every accepted candidate gives a domain row with its coordinates |
| Extraction.ExtractRow | domains.py:99-135 | each row of a protein has start < end <= length and Domain_Len = end - start + 1, and it describes the protein |
| Extraction.ExtractRowSentinel | domains.py:109-135 | a protein gets a sentinel row exactly when its cell holds no annotation, and then that is its only row |
| Extraction.AllRejected | domains.py:109-123 | a protein whose annotations all fail validation contributes no row and no sentinel |
| Extraction.UnmatchedRowSentinel | domains.py:101-135 | a protein missing from the spreadsheet gives one sentinel row with `nan` existence and evidence |
| Extraction.ExtractField | domains.py:107-123 | a cell listing annotations gives the rows of exactly the accepted ones |
| Extraction.SingleDomainExample | domains.py:107-123 | `DOMAIN 10..40` on a 50-residue protein gives one row with Start 10, End 40 and Domain_Len 31 |
| Extraction.ExtractAllProvenance | domains.py:99-135 | every domain row describes one of the merged rows |
| Extraction.ExtractAllPrefix | domains.py:99-135 | the rows of the first n merged rows come first in df_domains, unchanged |
| Extraction.ExtractAllBlock | domains.py:99-135 | each merged row contributes its own rows as one block, right after the rows of the merged rows before it |
| Extraction.SentinelReported | domains.py:131-135 | every merged row without annotations has its sentinel row in df_domains |
| Extraction.AppendCandidates | domains.py:110-123 | the inner loop appends exactly the rows of the accepted matches |
| Extraction.ExtractDomains | domains.py:99-135 | the outer loop builds df_domains as ExtractAll specifies it |
| Dedup.DropDuplicates | domains.py:159 | the deduplicated table has distinct (Entry, Start, End) keys and exactly the keys of the input; its rows are input rows and it is no longer than the input |
| Dedup.DropDuplicatesFirst | domains.py:159 | the kept rows are the first row of each key, in table order, and every first row is kept |
| Dedup.DropDuplicatesDistinct | domains.py:159 | a table whose keys are already distinct is unchanged |
| Dedup.DropDuplicatesIdempotent | domains.py:159 | deduplicating twice is deduplicating once |
| Dedup.SentinelsCollapse | domains.py:159 | after deduplication an entry has at most one sentinel row |
| Dedup.FirstOfKeyLast | domains.py:159 | the last row is the first of its key exactly when no earlier row has that key |
| Partition.ShortDomains | domains.py:251 | the short part holds each input row with Domain_Len < 100 as often as the input does, and no other row |
| Partition.LongDomains | domains.py:252 | the long part holds each input row with Domain_Len >= 100 as often as the input does, and no other row |
| Partition.WithCoords | domains.py:247 | `dropna` keeps each input row that has coordinates as often as the input does, and no other row |
| Partition.PartitionCovers | domains.py:247-252 | together the two parts hold each row that has coordinates exactly once, as multisets |
| Partition.PartitionDisjoint | domains.py:251-252 | no row is in both parts, and no sentinel is in either |
| Partition.HundredIsLong | domains.py:251-252 | a domain of exactly 100 residues is long |
| Export.ColumnKindOf | domains.py:138 | the columns are integers exactly when every row has coordinates, floats exactly when some rows have them and some do not, and hold only None exactly when the table is non-empty and no row has them |
| Export.NumCell | domains.py:177-179 | a number cell never contains a tab |
| Export.NumCellRoundTrip | domains.py:177-179 | each of the renderings `10`, `10.0`, `nan` and `None` reads back as the value it shows |
| Export.StartCellRendering | domains.py:138-177 | a row with coordinates prints its start as digits, followed by `.0` when the table has a sentinel; a sentinel prints `nan`, or `None` when no row of the table has coordinates |
| Export.SummaryBody | domains.py:174-184 | the summary holds one line per domain row, in table order |
| Export.WriteSummaryRows | domains.py:174-184 | the row loop appends exactly those lines |
| Export.WriteSummary | domains.py:169-184 | microdomains.txt ends up holding the three-line preamble, a blank line and one line per row |
| Export.SummaryRoundTrip | domains.py:170-184 | line 4 + k of the file holds row k, and splitting it at the tabs gives back that row's eight columns |
| Export.FirstFromSpec | domains.py:219-223 | the search finds the first merged row with the entry from an offset on, or none when no such row exists |
| Export.FirstSequenceSpec | domains.py:219-223 | `seq_row.iloc[0]` is the first merged row with the entry, and there is none exactly when no merged row has the entry |
| Export.CutSlice | domains.py:219-228 | a cut is residues start..end (1-based, inclusive) of the entry's first merged sequence, with end - start + 1 residues |
| Export.CutStartZero | domains.py:112-227 | a domain starting at 0 is cut, but its cut holds at most one residue and is shorter than its Domain_Len |
| Export.NoCut | domains.py:220-226 | a row without coordinates, or whose entry has no sequence, gives no cut |
| Export.CutRecordBody | domains.py:230-236 | a cut's FASTA record is its header followed by 70-column lines that join back to the cut |
| Export.CutLineFields | domains.py:203-241 | a line of the cuts summary splits back into seven columns, one fewer than the preamble announces |
| Export.WriteCut | domains.py:208-241 | one iteration appends the row's FASTA record and its summary line, or nothing when the row gives no cut |
| Export.WriteCutRows | domains.py:208-241 | the loop appends the records and summary lines of every row, in order |
| Export.WriteCuts | domains.py:202-241 | microdomains.fasta holds the FASTA records of all cuts, and microdomains_cuts.txt holds its preamble followed by one line per cut |
| Export.ExportMatchesCut | domains.py:226-291 | export_fasta writes the same body lines as step 4 for every row; only the header differs |
| Export.ExportOne | domains.py:273-291 | one iteration appends the row's record, or nothing when it gives no cut |
| Export.ExportRows | domains.py:273-291 | the loop appends the records of every row, in order |
| Export.ExportFasta | domains.py:271-291 | the file ends up holding exactly the records of the rows |
| Pipeline.SentinelKeys | domains.py:159 | whether a table has sentinels, and whether it has rows with coordinates, can be read from its set of (Entry, Start, End) keys |
| Pipeline.DedupKeepsColumnKind | domains.py:138-159 | deduplication keeps the dtype of the coordinate columns, so the kind the writers use is the one pandas chose when it built df_domains |
| Pipeline.PartitionsHaveCoords | domains.py:275-276 | both parts have coordinates in every row, as `int(row['Start'])` needs |
| Pipeline.PipelineFails | domains.py:60-86 | the script fails exactly when the spreadsheet is missing (the listing branch raises first) or when no FASTA file exists |
| Pipeline.PipelineGuarantees | domains.py:99-252 | a run's domain rows are well formed and have distinct keys, keep every key of the extracted table and the dtype of its coordinate columns, have their coordinate rows split between the two parts, and fill the summary with one line per row after the preamble |
| Pipeline.PipelineKeepsSequences | domains.py:49-95 | with the spreadsheet present, every record of every loaded file reaches the merged table |
| Pipeline.LoadTables | domains.py:48-86 | the loop over the configured paths parses every existing file and gives the concatenation of their tables |
| Pipeline.RunScript | domains.py:48-295 | the script writes nothing when it fails; otherwise each of its five text files holds exactly the lines the model computes |
| Structures.LoadFastaSequences | estructuras.py:49-74 | the reading loop returns the map LoadFasta specifies, or fails when a header has no id |
| Structures.LoadRecords | estructuras.py:49-74 | reading a FASTA text made of well-formed records gives the map in which each record with lines stores the concatenation of its cleaned lines under its id |
| Structures.LastRecordWins | estructuras.py:60-72 | a later record with the same id replaces the earlier one, and the last record is stored after the loop |
| Structures.EmptyRecordNotStored | estructuras.py:60-71 | a header with no following line stores nothing |
| Structures.BlankRecordStoredEmpty | estructuras.py:60-68 | a header followed only by lines without letters stores the empty sequence |
| Structures.PreambleDiscarded | estructuras.py:58-68 | lines before the first header are read but never stored |
| Structures.BareHeaderFails | estructuras.py:64-65 | a bare `>` line makes the whole read fail, as `split()[0]` raises |
| Structures.FoldNone | estructuras.py:64-65 | once the reader has raised, it stays failed |
| Structures.HeaderLineId | estructuras.py:56-65 | the id of a header line `>id rest` is its first whitespace-free token |
| Structures.HeaderLineIdSpaced | estructuras.py:56-65 | whitespace between `>` and the id does not change the id read from the line |
| Structures.FoldBody | estructuras.py:67-68 | lines without `>` only add their cleaned text to the pending record |
| Structures.FirstTokenProps | estructuras.py:65 | `split()[0]` is a non-empty prefix without whitespace, followed by the end or by whitespace |
| Structures.Lookup | estructuras.py:163-165 | a found sequence comes from one of the two maps; nothing is found exactly when the entry is missing from the long map and is missing or empty in the short map |
| Structures.LookupOrder | estructuras.py:163 | a non-empty short sequence is preferred, and otherwise the long map decides |
| Structures.DecideSubmit | estructuras.py:157-175 | a request is made exactly for a non-empty entry whose sequence is found with at least 50 residues |
| Structures.TranscriptLength | estructuras.py:155-173 | the loop performs at most one action per typed line |
| Structures.TranscriptQuitLast | estructuras.py:159-161 | only the last action can be quitting |
| Structures.TranscriptSubmitLong | estructuras.py:171-175 | every submitted sequence has at least 50 residues |
| Structures.TranscriptQuit | estructuras.py:157-161 | the loop quits exactly when some typed line strips to nothing |
| Structures.Session | estructuras.py:155-175 | the interactive loop performs the actions Transcript specifies |
| CutDomains.Accession | cut_domains.py:6 | the identifier is never empty, and it is the stripped input whenever that is non-empty |
| CutDomains.Residues | cut_domains.py:7 | the sequence keeps the length of the stripped input |
| CutDomains.PrepareCut | cut_domains.py:12-22 | the cut succeeds exactly when 1 <= start <= end <= len; the first error is raised exactly when start < 1, end < 1 or start > end; a cut is the 1-based inclusive slice, of end - start + 1 residues, under the header CutHeader builds from the identifier, start, end and that length |
| CutDomains.AppendCut | cut_domains.py:12-33 | a rejected input leaves the file unchanged; an accepted one appends its header and its 70-column lines |
| CutDomains.CutIsUpperCase | cut_domains.py:7-18 | the cut holds no lower-case letter |
| CutDomains.AppendedBody | cut_domains.py:32-33 | the appended lines join back to the cut and hold at most 70 residues each |
| CutDomains.AcceptanceComparedWithPipeline | cut_domains.py:12-15 | the cutter accepts every pipeline candidate that starts at 1 or later, and also one-residue cuts, which the pipeline rejects; the pipeline alone accepts a start of 0 |

## Left out

- The AlphaFold client `run_alphafold_for_entry` (estructuras.py:80-134) is not modelled. It makes HTTP calls to a remote service, so it is I/O. A `Submit` action stands for the request.
- `json_to_pdb` (estructuras.py:34-43) is not modelled. It rewrites a file returned by the remote service.
- The loop's handling of the request's result (estructuras.py:175-186) is not modelled, for the same reason.
- Reading the API key (estructuras.py:147-150) is not modelled, because the key comes from the environment or the console.
- Console input and output are not modelled: `input()` and `print()` in all three scripts. Typed lines are given as parameters, and nothing is printed.
- CutDomains.PrepareCut takes start and end as integers. A typed number that `int()` cannot parse (cut_domains.py:8-9) raises `ValueError` before validation, and that case is not represented.
- Biopython's FASTA parser `SeqIO.parse` is not modelled. Its records are given as id, description and sequence.
- `pd.read_excel` is not modelled, and neither is the choice of its four columns. The annotation rows are given, and an empty cell is `None`.
- The missing-spreadsheet branch of domains.py:60-66 is represented only by its outcome, the `MissingAnnotationDataset` failure. It lists a directory through an undefined name and raises `NameError` before any output.
- The `.xlsx` and `.csv` exports are not modelled: `to_excel`, and `to_csv` of the short and long tables (domains.py:189, 264-268). They are binary or pandas-formatted files.
- Directory creation and paths are not modelled (`os.makedirs`, `os.path.join`), because they concern the file system only.
- The counts and previews the script prints (domains.py:140-153, 247-248, 254-255) are not modelled.
- Only the ASCII part of Python's character classes is modelled: whitespace, `\w`, `\d`, `isalpha()` and `upper()`. Non-ASCII letters, digits and spaces are treated as other characters.
- Export.NumCell: covers the three renderings the columns take, `n` for an integer column, `n.0` or `nan` for a float column and `None` for a column without values. The general float formatting of Python is not modelled, so a coordinate of 10^16 or more, which a float column prints in exponent form, is rendered as digits.
- Protein_Len never holds a missing value, so it is always rendered as an integer.
- The pandas edge case of an empty frame is not represented. A `DataFrame` built from an empty list of rows has no columns, so selecting a column of it raises. The model treats an empty table like any other.
