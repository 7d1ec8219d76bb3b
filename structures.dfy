/** estructuras.py without its network client: the line-driven FASTA reader
    load_fasta_sequences and the per-entry decision of the interactive loop. */
module Structures {
  import opened Wrappers
  import opened Text

  // load_fasta_sequences

  /** The three local variables of the reader. */
  datatype Loader = Loader(seqs: map<string, string>, currentId: Option<string>, currentSeq: seq<string>)

  const Initial: Loader := Loader(map[], None, [])

  /** Stores the pending record when it has an id and at least one line. */
  function Flush(st: Loader): map<string, string>
  {
    if st.currentId.Some? && st.currentId.value != [] && st.currentSeq != []
    then st.seqs[st.currentId.value := Concat(st.currentSeq)]
    else st.seqs
  }

  /** A line that, once stripped, starts with '>'. */
  predicate IsHeaderLine(raw: string)
  {
    var l := Strip(raw);
    |l| > 0 && l[0] == '>'
  }

  /** The stripped text after the '>' of a header line. */
  function HeaderText(raw: string): string
    requires IsHeaderLine(raw)
  {
    Strip(Strip(raw)[1..])
  }

  /** header.split()[0] of a non-empty stripped header: the text up to the first
      whitespace. */
  function FirstToken(h: string): string
    requires h != [] && !IsSpace(h[0])
  {
    h[..RunEnd(h, 0, NonSpace)]
  }

  /** The first token is a non-empty prefix without whitespace, followed by
      whitespace or the end of the header. */
  lemma FirstTokenProps(h: string)
    requires h != [] && !IsSpace(h[0])
    ensures var id := FirstToken(h);
      && id != [] && |id| <= |h| && id == h[..|id|]
      && (forall k :: 0 <= k < |id| ==> !IsSpace(id[k]))
      && (|id| < |h| ==> IsSpace(h[|id|]))
  {
    RunEndProps(h, 0, NonSpace);
  }

  /** The cleaned text of a sequence line: its letters. */
  function CleanLine(raw: string): string
  {
    KeepAlpha(Strip(raw))
  }

  /** One iteration of the reader; None when header.split()[0] raises IndexError
      on a header line with nothing after the '>'. */
  function Step(st: Loader, raw: string): Option<Loader>
  {
    if IsHeaderLine(raw) then
      var h := HeaderText(raw);
      if h == [] then None else Some(Loader(Flush(st), Some(FirstToken(h)), []))
    else Some(st.(currentSeq := st.currentSeq + [CleanLine(raw)]))
  }

  function Fold(st: Loader, lines: seq<string>): Option<Loader>
  {
    if lines == [] then Some(st)
    else
      match Fold(st, lines[..|lines| - 1])
      case None => None
      case Some(s) => Step(s, lines[|lines| - 1])
  }

  /** The map returned for a file of the given lines, None when the reader raises. */
  function LoadFasta(lines: seq<string>): Option<map<string, string>>
  {
    match Fold(Initial, lines)
    case None => None
    case Some(s) => Some(Flush(s))
  }

  method LoadFastaSequences(lines: seq<string>) returns (r: Option<map<string, string>>)
    ensures r == LoadFasta(lines)
  {
    var seqs: map<string, string> := map[];
    var currentId: Option<string> := None;
    var currentSeq: seq<string> := [];
    var n := 0;
    while n < |lines|
      invariant n <= |lines|
      invariant Fold(Initial, lines[..n]) == Some(Loader(seqs, currentId, currentSeq))
    {
      FoldStep(lines, n);
      var line := Strip(lines[n]);
      if |line| > 0 && line[0] == '>' {
        seqs := Flush(Loader(seqs, currentId, currentSeq));
        var header := Strip(line[1..]);
        if header == [] {
          assert Fold(Initial, lines[..n + 1]) == None;
          assert lines == lines[..n + 1] + lines[n + 1..];
          FoldNone(lines[..n + 1], lines[n + 1..]);
          return None;
        }
        currentId := Some(FirstToken(header));
        currentSeq := [];
      } else {
        currentSeq := currentSeq + [KeepAlpha(line)];
      }
      n := n + 1;
    }
    assert lines[..n] == lines;
    r := Some(Flush(Loader(seqs, currentId, currentSeq)));
  }

  lemma FoldStep(lines: seq<string>, n: nat)
    requires n < |lines|
    ensures Fold(Initial, lines[..n + 1]) == match Fold(Initial, lines[..n]) case None => None case Some(s) => Step(s, lines[n])
  {
    assert lines[..n + 1][..n] == lines[..n];
  }

  /** Reading a + b is reading a, then b from the state a leaves. */
  lemma {:induction false} FoldAppend(st: Loader, a: seq<string>, b: seq<string>)
    ensures Fold(st, a + b) == match Fold(st, a) case None => None case Some(s) => Fold(s, b)
  {
    if b == [] {
      assert a + b == a;
    } else {
      assert (a + b)[..|a + b| - 1] == a + b[..|b| - 1];
      FoldAppend(st, a, b[..|b| - 1]);
    }
  }

  /** Once the reader has raised, it stays failed. */
  lemma FoldNone(a: seq<string>, b: seq<string>)
    requires Fold(Initial, a) == None
    ensures Fold(Initial, a + b) == None
  {
    FoldAppend(Initial, a, b);
  }

  /** A header line with nothing after the '>' makes the whole read fail. */
  lemma BareHeaderFails(a: seq<string>, b: seq<string>)
    ensures LoadFasta(a + [">"] + b) == None
  {
    FoldAppend(Initial, a, [">"]);
    forall st: Loader ensures Step(st, ">") == None {
      BareHeaderStep(st);
    }
    FoldNone(a + [">"], b);
  }

  /** The reader raises on a bare ">" whatever its state. */
  lemma BareHeaderStep(st: Loader)
    ensures Step(st, ">") == None
  {
    var m := ">";
    RunEndExact(m, 0, 0, Space);
    assert TrimLeft(m) == m[0..] == m;
    assert TrimRight(m) == m;
    assert Strip(m)[1..] == [];
  }

  /** Running text lines (no header among them) only add their cleaned text to the
      pending record. */
  lemma {:induction false} FoldBody(st: Loader, body: seq<string>)
    requires forall k :: 0 <= k < |body| ==> !IsHeaderLine(body[k])
    ensures Fold(st, body) == Some(st.(currentSeq := st.currentSeq + CleanAll(body)))
  {
    if body != [] {
      var n := |body| - 1;
      FoldBody(st, body[..n]);
      var s0 := st.(currentSeq := st.currentSeq + CleanAll(body[..n]));
      assert Fold(st, body) == Step(s0, body[n]);
      assert !IsHeaderLine(body[n]);
      assert CleanAll(body) == CleanAll(body[..n]) + [CleanLine(body[n])];
      assert st.currentSeq + CleanAll(body[..n]) + [CleanLine(body[n])] == st.currentSeq + CleanAll(body);
      assert Step(s0, body[n]) == Some(s0.(currentSeq := s0.currentSeq + [CleanLine(body[n])]));
    } else {
      assert st.currentSeq + [] == st.currentSeq;
    }
  }

  function CleanAll(body: seq<string>): (r: seq<string>)
    ensures |r| == |body|
  {
    if body == [] then [] else CleanAll(body[..|body| - 1]) + [CleanLine(body[|body| - 1])]
  }

  /** A token: non-empty, without whitespace. */
  predicate IsToken(id: string)
  {
    id != [] && forall k :: 0 <= k < |id| ==> !IsSpace(id[k])
  }

  /** A token followed by nothing or by whitespace survives strip() and is what
      split()[0] returns. */
  lemma TokenThenSpace(id: string, rest: string)
    requires IsToken(id) && (rest == [] || IsSpace(rest[0]))
    ensures id + rest != [] && !IsSpace((id + rest)[0])
    ensures Strip(id + rest) != [] && FirstToken(Strip(id + rest)) == id
  {
    var x := id + rest;
    assert x[0] == id[0];
    RunEndExact(x, 0, 0, Space);
    assert TrimLeft(x) == x;
    var t := TrimRight(x);
    assert !IsSpace(x[|id| - 1]);
    if |t| < |id| {
      assert false;
    }
    assert forall k :: 0 <= k < |id| ==> t[k] == id[k];
    assert |id| < |t| ==> t[|id|] == rest[0];
    RunEndExact(t, 0, |id|, NonSpace);
    assert t[..|id|] == id;
  }

  lemma HeaderLineStrip(id: string, rest: string) returns (rest': string)
    requires IsToken(id) && (rest == [] || IsSpace(rest[0]))
    ensures Strip(">" + id + rest) == ">" + (id + rest')
    ensures rest' == [] || IsSpace(rest'[0])
  {
    var raw := ">" + id + rest;
    RunEndExact(raw, 0, 0, Space);
    assert TrimLeft(raw) == raw;
    var t := TrimRight(raw);
    assert raw[|id|] == id[|id| - 1];
    assert !IsSpace(raw[|id|]);
    if |t| < 1 + |id| {
      assert false;
    }
    rest' := rest[..|t| - 1 - |id|];
    assert t == ">" + id + rest';
    assert ">" + id + rest' == ">" + (id + rest');
  }

  /** The header text of ">" + id + rest is the stripped id + rest'. */
  lemma HeaderTextOf(id: string, rest: string) returns (rest': string)
    requires IsToken(id) && (rest == [] || IsSpace(rest[0]))
    ensures rest' == [] || IsSpace(rest'[0])
    ensures IsHeaderLine(">" + id + rest)
    ensures HeaderText(">" + id + rest) == Strip(id + rest')
  {
    rest' := HeaderLineStrip(id, rest);
    MarkedLine(">" + id + rest, id + rest');
  }

  /** A line that strips to '>' followed by u is a header line with text Strip(u). */
  lemma MarkedLine(raw: string, u: string)
    requires Strip(raw) == ">" + u
    ensures IsHeaderLine(raw) && HeaderText(raw) == Strip(u)
  {
    assert (">" + u)[1..] == u;
  }

  /** The id of a header line ">" + id + rest is id. */
  lemma HeaderLineId(id: string, rest: string)
    requires IsToken(id) && (rest == [] || IsSpace(rest[0]))
    ensures IsHeaderLine(">" + id + rest)
    ensures HeaderText(">" + id + rest) != [] && FirstToken(HeaderText(">" + id + rest)) == id
  {
    var rest' := HeaderTextOf(id, rest);
    TokenThenSpace(id, rest');
  }

  lemma HeaderLineStripSpaced(ws: string, id: string, rest: string) returns (rest': string)
    requires IsToken(id) && (rest == [] || IsSpace(rest[0]))
    ensures Strip(">" + ws + id + rest) == ">" + (ws + (id + rest'))
    ensures rest' == [] || IsSpace(rest'[0])
  {
    var raw := ">" + ws + id + rest;
    var n := 1 + |ws| + |id|;
    RunEndExact(raw, 0, 0, Space);
    assert TrimLeft(raw) == raw;
    var t := TrimRight(raw);
    assert raw[n - 1] == id[|id| - 1];
    if |t| < n {
      assert false;
    }
    rest' := rest[..|t| - n];
    assert t == ">" + (ws + (id + rest'));
  }

  /** Whitespace between '>' and the id changes nothing: the id of a header line
      ">" + ws + id + rest is still id. */
  lemma HeaderLineIdSpaced(ws: string, id: string, rest: string)
    requires forall k :: 0 <= k < |ws| ==> IsSpace(ws[k])
    requires IsToken(id) && (rest == [] || IsSpace(rest[0]))
    ensures IsHeaderLine(">" + ws + id + rest)
    ensures HeaderText(">" + ws + id + rest) != [] && FirstToken(HeaderText(">" + ws + id + rest)) == id
  {
    var rest' := HeaderLineStripSpaced(ws, id, rest);
    MarkedLine(">" + ws + id + rest, ws + (id + rest'));
    StripLeadingSpace(ws, id + rest');
    TokenThenSpace(id, rest');
  }

  /** A record as written in a FASTA text: a header ">" + id + rest and its lines. */
  datatype TextRecord = TextRecord(id: string, rest: string, body: seq<string>)

  predicate WellFormedRecord(e: TextRecord)
  {
    && IsToken(e.id)
    && (e.rest == [] || IsSpace(e.rest[0]))
    && forall k :: 0 <= k < |e.body| ==> !IsHeaderLine(e.body[k])
  }

  function RecordLines(e: TextRecord): seq<string>
  {
    [">" + e.id + e.rest] + e.body
  }

  function TextOf(records: seq<TextRecord>): seq<string>
  {
    if records == [] then [] else TextOf(records[..|records| - 1]) + RecordLines(records[|records| - 1])
  }

  /** The map the records describe: each record with at least one line stores the
      concatenation of its cleaned lines under its id, a later record replacing an
      earlier one. */
  function Expected(records: seq<TextRecord>): map<string, string>
  {
    if records == [] then map[]
    else
      var e := records[|records| - 1];
      var m := Expected(records[..|records| - 1]);
      if e.body != [] then m[e.id := Concat(CleanAll(e.body))] else m
  }

  /** The reader's state after the lines of the given records. */
  function Pending(records: seq<TextRecord>): Loader
  {
    if records == [] then Initial
    else
      var e := records[|records| - 1];
      Loader(Expected(records[..|records| - 1]), Some(e.id), CleanAll(e.body))
  }

  /** A header line starts a new pending record under its id, after storing the
      previous one. */
  lemma StepHeader(st: Loader, id: string, rest: string)
    requires IsToken(id) && (rest == [] || IsSpace(rest[0]))
    ensures Step(st, ">" + id + rest) == Some(Loader(Flush(st), Some(id), []))
  {
    HeaderLineId(id, rest);
  }

  lemma FoldOne(st: Loader, line: string)
    ensures Fold(st, [line]) == Step(st, line)
  {
    assert [line][..0] == [];
  }

  lemma PendingFlush(records: seq<TextRecord>)
    requires forall k :: 0 <= k < |records| ==> WellFormedRecord(records[k])
    ensures Flush(Pending(records)) == Expected(records)
  {
  }

  /** The lines of one record store the pending one and leave the record pending. */
  lemma FoldRecord(st: Loader, e: TextRecord)
    requires WellFormedRecord(e)
    ensures Fold(st, RecordLines(e)) == Some(Loader(Flush(st), Some(e.id), CleanAll(e.body)))
  {
    var hdr := ">" + e.id + e.rest;
    FoldAppend(st, [hdr], e.body);
    FoldOne(st, hdr);
    StepHeader(st, e.id, e.rest);
    var s := Loader(Flush(st), Some(e.id), []);
    FoldBody(s, e.body);
    assert [] + CleanAll(e.body) == CleanAll(e.body);
  }

  lemma {:induction false} FoldRecords(records: seq<TextRecord>)
    requires forall k :: 0 <= k < |records| ==> WellFormedRecord(records[k])
    ensures Fold(Initial, TextOf(records)) == Some(Pending(records))
  {
    if records != [] {
      var n := |records| - 1;
      var front := records[..n];
      var e := records[n];
      assert forall k :: 0 <= k < |front| ==> front[k] == records[k];
      FoldRecords(front);
      FoldAppend(Initial, TextOf(front), RecordLines(e));
      FoldRecord(Pending(front), e);
      PendingFlush(front);
    }
  }

  /** Reading a FASTA text gives the map its records describe. */
  lemma LoadRecords(records: seq<TextRecord>)
    requires forall k :: 0 <= k < |records| ==> WellFormedRecord(records[k])
    ensures LoadFasta(TextOf(records)) == Some(Expected(records))
  {
    FoldRecords(records);
    PendingFlush(records);
  }

  lemma ExpectedAppend(records: seq<TextRecord>, e: TextRecord)
    ensures Expected(records + [e]) ==
      if e.body != [] then Expected(records)[e.id := Concat(CleanAll(e.body))] else Expected(records)
  {
    assert (records + [e])[..|records|] == records;
  }

  lemma WellFormedAppend(records: seq<TextRecord>, e: TextRecord)
    requires forall k :: 0 <= k < |records| ==> WellFormedRecord(records[k])
    requires WellFormedRecord(e)
    ensures forall k :: 0 <= k < |records + [e]| ==> WellFormedRecord((records + [e])[k])
  {
  }

  /** The last record with an id wins, and its sequence is the concatenation of its
      lines, each filtered to letters. */
  lemma LastRecordWins(records: seq<TextRecord>, e: TextRecord)
    requires forall k :: 0 <= k < |records| ==> WellFormedRecord(records[k])
    requires WellFormedRecord(e) && e.body != []
    ensures LoadFasta(TextOf(records + [e])).Some?
    ensures var m := LoadFasta(TextOf(records + [e])).value;
      e.id in m && m[e.id] == Concat(CleanAll(e.body))
  {
    WellFormedAppend(records, e);
    LoadRecords(records + [e]);
    ExpectedAppend(records, e);
  }

  /** A header without lines stores nothing. */
  lemma EmptyRecordNotStored(records: seq<TextRecord>, e: TextRecord)
    requires forall k :: 0 <= k < |records| ==> WellFormedRecord(records[k])
    requires WellFormedRecord(e) && e.body == []
    ensures LoadFasta(TextOf(records + [e])) == LoadFasta(TextOf(records))
  {
    WellFormedAppend(records, e);
    LoadRecords(records + [e]);
    LoadRecords(records);
    ExpectedAppend(records, e);
  }

  lemma {:induction false} ConcatEmpty(parts: seq<string>)
    requires forall k :: 0 <= k < |parts| ==> parts[k] == []
    ensures Concat(parts) == []
  {
    if parts != [] {
      ConcatEmpty(parts[1..]);
    }
  }

  lemma {:induction false} CleanAllAt(body: seq<string>, k: nat)
    requires k < |body|
    ensures CleanAll(body)[k] == CleanLine(body[k])
  {
    if k < |body| - 1 {
      CleanAllAt(body[..|body| - 1], k);
    }
  }

  /** A header followed only by lines without letters stores the empty sequence. */
  lemma BlankRecordStoredEmpty(records: seq<TextRecord>, e: TextRecord)
    requires forall k :: 0 <= k < |records| ==> WellFormedRecord(records[k])
    requires WellFormedRecord(e) && e.body != []
    requires forall k :: 0 <= k < |e.body| ==> CleanLine(e.body[k]) == []
    ensures LoadFasta(TextOf(records + [e])).Some?
    ensures var m := LoadFasta(TextOf(records + [e])).value; e.id in m && m[e.id] == []
  {
    LastRecordWins(records, e);
    forall k | 0 <= k < |e.body| ensures CleanAll(e.body)[k] == [] {
      CleanAllAt(e.body, k);
    }
    ConcatEmpty(CleanAll(e.body));
  }

  lemma {:induction false} TextOfFirst(records: seq<TextRecord>)
    requires records != []
    ensures |TextOf(records)| > 0 && TextOf(records)[0] == ">" + records[0].id + records[0].rest
  {
    var n := |records| - 1;
    if n > 0 {
      TextOfFirst(records[..n]);
    }
  }

  /** From its first header line on, the reader depends on the state before it only
      through what a flush would store. */
  lemma FoldFromHeader(s1: Loader, s2: Loader, lines: seq<string>, id: string, rest: string)
    requires lines != [] && lines[0] == ">" + id + rest
    requires IsToken(id) && (rest == [] || IsSpace(rest[0]))
    requires Flush(s1) == Flush(s2)
    ensures Fold(s1, lines) == Fold(s2, lines)
  {
    assert lines == [lines[0]] + lines[1..];
    FoldAppend(s1, [lines[0]], lines[1..]);
    FoldAppend(s2, [lines[0]], lines[1..]);
    FoldOne(s1, lines[0]);
    FoldOne(s2, lines[0]);
    StepHeader(s1, id, rest);
    StepHeader(s2, id, rest);
  }

  /** Lines before the first header are read but never stored. */
  lemma PreambleDiscarded(pre: seq<string>, records: seq<TextRecord>)
    requires forall k :: 0 <= k < |pre| ==> !IsHeaderLine(pre[k])
    requires records != [] && WellFormedRecord(records[0])
    ensures LoadFasta(pre + TextOf(records)) == LoadFasta(TextOf(records))
  {
    var t := TextOf(records);
    TextOfFirst(records);
    FoldBody(Initial, pre);
    var s := Initial.(currentSeq := CleanAll(pre));
    assert Initial.currentSeq + CleanAll(pre) == CleanAll(pre);
    assert Fold(Initial, pre) == Some(s);
    FoldAppend(Initial, pre, t);
    FoldFromHeader(s, Initial, t, records[0].id, records[0].rest);
  }

  // main_interactivo, lines 157-175

  /** fasta_short.get(entry) or fasta_long.get(entry): an empty short sequence is
      falsy and falls through to the long map. */
  function Lookup(short: map<string, string>, long: map<string, string>, entry: string): (r: Option<string>)
    ensures r.Some? ==> (entry in short && short[entry] == r.value) || (entry in long && long[entry] == r.value)
    ensures r.None? <==> entry !in long && (entry !in short || short[entry] == [])
  {
    if entry in short && short[entry] != [] then Some(short[entry])
    else if entry in long then Some(long[entry])
    else None
  }

  /** A non-empty short sequence is preferred; otherwise the long map decides. */
  lemma LookupOrder(short: map<string, string>, long: map<string, string>, entry: string)
    ensures entry in short && short[entry] != [] ==> Lookup(short, long, entry) == Some(short[entry])
    ensures (entry !in short || short[entry] == []) && entry in long ==> Lookup(short, long, entry) == Some(long[entry])
  {
  }

  const MinLength: nat := 50

  datatype Action = Quit | NotFound(entry: string) | TooShort(entry: string, length: nat) | Submit(entry: string, sequence: string)

  /** What the loop does with one line typed by the user. */
  function Decide(short: map<string, string>, long: map<string, string>, raw: string): Action
  {
    var entry := Strip(raw);
    if entry == [] then Quit
    else
      match Lookup(short, long, entry)
      case None => NotFound(entry)
      case Some(s) => if |s| < MinLength then TooShort(entry, |s|) else Submit(entry, s)
  }

  /** A request is built exactly for a found sequence of at least 50 residues. */
  lemma DecideSubmit(short: map<string, string>, long: map<string, string>, raw: string)
    ensures Decide(short, long, raw).Submit? <==>
      Strip(raw) != [] && Lookup(short, long, Strip(raw)).Some? && |Lookup(short, long, Strip(raw)).value| >= MinLength
    ensures Decide(short, long, raw).Submit? ==>
      Decide(short, long, raw) == Submit(Strip(raw), Lookup(short, long, Strip(raw)).value)
  {
  }

  /** The actions of the loop over the typed lines, up to the first empty one. */
  function Transcript(short: map<string, string>, long: map<string, string>, inputs: seq<string>): seq<Action>
  {
    if inputs == [] then []
    else
      var a := Decide(short, long, inputs[0]);
      if a == Quit then [Quit] else [a] + Transcript(short, long, inputs[1..])
  }

  /** The transcript unfolded at line n. */
  lemma TranscriptStep(short: map<string, string>, long: map<string, string>, inputs: seq<string>, n: nat)
    requires n < |inputs|
    ensures var a := Decide(short, long, inputs[n]);
      Transcript(short, long, inputs[n..]) == if a == Quit then [Quit] else [a] + Transcript(short, long, inputs[n + 1..])
  {
    assert inputs[n..][1..] == inputs[n + 1..];
  }

  /** At most one action per typed line. */
  lemma {:induction false} TranscriptLength(short: map<string, string>, long: map<string, string>, inputs: seq<string>)
    ensures |Transcript(short, long, inputs)| <= |inputs|
  {
    if inputs != [] {
      TranscriptLength(short, long, inputs[1..]);
    }
  }

  /** Only the last action can be Quit. */
  lemma {:induction false} TranscriptQuitLast(short: map<string, string>, long: map<string, string>, inputs: seq<string>)
    ensures forall k :: 0 <= k < |Transcript(short, long, inputs)| - 1 ==> Transcript(short, long, inputs)[k] != Quit
  {
    if inputs != [] && Decide(short, long, inputs[0]) != Quit {
      TranscriptQuitLast(short, long, inputs[1..]);
      var t, rest := Transcript(short, long, inputs), Transcript(short, long, inputs[1..]);
      assert t == [Decide(short, long, inputs[0])] + rest;
      forall k | 0 < k < |t| ensures t[k] == rest[k - 1] {}
    }
  }

  /** Every submitted sequence has at least 50 residues. */
  lemma {:induction false} TranscriptSubmitLong(short: map<string, string>, long: map<string, string>, inputs: seq<string>)
    ensures forall k :: 0 <= k < |Transcript(short, long, inputs)| && Transcript(short, long, inputs)[k].Submit? ==>
      |Transcript(short, long, inputs)[k].sequence| >= MinLength
  {
    if inputs != [] && Decide(short, long, inputs[0]) != Quit {
      TranscriptSubmitLong(short, long, inputs[1..]);
      var t, rest := Transcript(short, long, inputs), Transcript(short, long, inputs[1..]);
      assert t == [Decide(short, long, inputs[0])] + rest;
      forall k | 0 < k < |t| ensures t[k] == rest[k - 1] {}
    }
  }

  /** The loop ends with Quit exactly when some typed line strips to nothing. */
  lemma {:induction false} TranscriptQuit(short: map<string, string>, long: map<string, string>, inputs: seq<string>)
    ensures Quit in Transcript(short, long, inputs) <==> exists k :: 0 <= k < |inputs| && Strip(inputs[k]) == []
  {
    if inputs != [] && Decide(short, long, inputs[0]) != Quit {
      TranscriptQuit(short, long, inputs[1..]);
      assert (exists k :: 0 <= k < |inputs| && Strip(inputs[k]) == []) ==
        (exists k :: 0 <= k < |inputs[1..]| && Strip(inputs[1..][k]) == []) by {
        forall k | 0 < k < |inputs| ensures inputs[k] == inputs[1..][k - 1] {}
      }
    }
  }

  /** The interactive loop over the typed lines; a Submit stands for the structure
      request, which is not part of this model. */
  method Session(short: map<string, string>, long: map<string, string>, inputs: seq<string>)
    returns (actions: seq<Action>)
    ensures actions == Transcript(short, long, inputs)
  {
    actions := [];
    var n := 0;
    while n < |inputs|
      invariant n <= |inputs|
      invariant actions + Transcript(short, long, inputs[n..]) == Transcript(short, long, inputs)
    {
      var a := Decide(short, long, inputs[n]);
      TranscriptStep(short, long, inputs, n);
      if a == Quit {
        actions := actions + [Quit];
        return;
      }
      AppendAssoc(actions, [a], Transcript(short, long, inputs[n + 1..]));
      actions := actions + [a];
      n := n + 1;
    }
  }
}
