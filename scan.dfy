/** re.findall(r'DOMAIN\s+(\d+)\.\.(\d+)', field) of domains.py, written out as a
    scanner: a match is tried at each offset from left to right; after a match the
    scan resumes at its end, after a failure one character further on. */
module DomainScan {
  import opened Wrappers
  import opened Text

  /** One match: where it starts, where the first number's digits start, where the
      two dots are, where the match ends, and the values of the two numbers. */
  datatype Hit = Hit(at: nat, startFrom: nat, dots: nat, next: nat, start: nat, end: nat)

  /** The literal DOMAIN at offset p. */
  predicate KeywordAt(t: string, p: nat)
  {
    p + 6 <= |t| && t[p] == 'D' && t[p + 1] == 'O' && t[p + 2] == 'M'
    && t[p + 3] == 'A' && t[p + 4] == 'I' && t[p + 5] == 'N'
  }

  /** h is a match of the pattern in t: DOMAIN, a run of whitespace, digits, two dots
      and the longest run of digits that follows, with the values the groups give. */
  ghost predicate HitShape(t: string, h: Hit)
  {
    && h.at + 6 < h.startFrom < h.dots
    && h.dots + 2 < h.next <= |t|
    && KeywordAt(t, h.at)
    && (forall k :: h.at + 6 <= k < h.startFrom ==> IsSpace(t[k]))
    && (forall k :: h.startFrom <= k < h.dots ==> IsDigit(t[k]))
    && t[h.dots] == '.' && t[h.dots + 1] == '.'
    && (forall k :: h.dots + 2 <= k < h.next ==> IsDigit(t[k]))
    && (h.next == |t| || !IsDigit(t[h.next]))
    && h.start == DecValue(t[h.startFrom..h.dots])
    && h.end == DecValue(t[h.dots + 2..h.next])
  }

  /** The pattern tried at offset p. Each repetition is followed by a character its
      class excludes, so the greedy runs are the only way the pattern can match. */
  function MatchAt(t: string, p: nat): (r: Option<Hit>)
    requires p <= |t|
    ensures r.Some? ==> r.value.at == p < r.value.next <= |t|
  {
    if !KeywordAt(t, p) then None
    else
      var w := RunEnd(t, p + 6, Space);
      if w == p + 6 then None
      else
        var d := RunEnd(t, w, Digit);
        if d == w || d + 2 > |t| || t[d] != '.' || t[d + 1] != '.' then None
        else
          var q := RunEnd(t, d + 2, Digit);
          if q == d + 2 then None
          else
            Some(Hit(p, w, d, q, DecValue(t[w..d]), DecValue(t[d + 2..q])))
  }

  /** A match found at p ends the three greedy runs where the hit says. */
  lemma MatchAtRuns(t: string, p: nat) returns (w: nat, d: nat, q: nat)
    requires p <= |t| && MatchAt(t, p).Some?
    ensures KeywordAt(t, p) && p + 6 < w < d && d + 2 < q <= |t| && t[d] == '.' && t[d + 1] == '.'
    ensures w == RunEnd(t, p + 6, Space) && d == RunEnd(t, w, Digit) && q == RunEnd(t, d + 2, Digit)
    ensures AllDigits(t[w..d]) && AllDigits(t[d + 2..q])
    ensures MatchAt(t, p) == Some(Hit(p, w, d, q, DecValue(t[w..d]), DecValue(t[d + 2..q])))
  {
    w := RunEnd(t, p + 6, Space);
    d := RunEnd(t, w, Digit);
    q := RunEnd(t, d + 2, Digit);
    RunEndProps(t, w, Digit);
    RunEndProps(t, d + 2, Digit);
  }

  /** What the matcher returns is a match of the pattern. */
  lemma MatchAtSound(t: string, p: nat)
    requires p <= |t| && MatchAt(t, p).Some?
    ensures HitShape(t, MatchAt(t, p).value)
  {
    var w, d, q := MatchAtRuns(t, p);
    RunEndProps(t, p + 6, Space);
    RunEndProps(t, w, Digit);
    RunEndProps(t, d + 2, Digit);
  }

  /** The three greedy runs of a match end where the match says. */
  lemma HitRuns(t: string, h: Hit)
    requires HitShape(t, h)
    ensures RunEnd(t, h.at + 6, Space) == h.startFrom
    ensures RunEnd(t, h.startFrom, Digit) == h.dots
    ensures RunEnd(t, h.dots + 2, Digit) == h.next
  {
    RunEndExact(t, h.at + 6, h.startFrom, Space);
    RunEndExact(t, h.startFrom, h.dots, Digit);
    RunEndExact(t, h.dots + 2, h.next, Digit);
  }

  /** Every match of the pattern at an offset is the one the matcher returns there. */
  lemma MatchAtComplete(t: string, h: Hit)
    requires HitShape(t, h)
    ensures MatchAt(t, h.at) == Some(h)
  {
    HitRuns(t, h);
  }

  /** The results of trying the pattern at each offset of a text: entry x is empty
      or a match that starts at x and ends inside the text. */
  predicate IsTable(ms: seq<Option<Hit>>)
  {
    forall x :: 0 <= x < |ms| && ms[x].Some? ==> ms[x].value.at == x < ms[x].value.next <= |ms|
  }

  /** The pattern tried at each of the first n offsets of t. */
  function TriedUpTo(t: string, n: nat): (ms: seq<Option<Hit>>)
    requires n <= |t|
    ensures |ms| == n
    ensures forall x :: 0 <= x < n && ms[x].Some? ==> ms[x].value.at == x < ms[x].value.next <= |t|
  {
    if n == 0 then [] else TriedUpTo(t, n - 1) + [MatchAt(t, n - 1)]
  }

  /** The pattern tried at every offset of t. */
  function Tried(t: string): (ms: seq<Option<Hit>>)
    ensures |ms| == |t| && IsTable(ms)
  {
    TriedUpTo(t, |t|)
  }

  lemma {:induction false} TriedUpToAt(t: string, n: nat, x: nat)
    requires x < n <= |t|
    ensures TriedUpTo(t, n)[x] == MatchAt(t, x)
  {
    if x < n - 1 {
      TriedUpToAt(t, n - 1, x);
    }
  }

  lemma TriedAt(t: string, x: nat)
    requires x < |t|
    ensures Tried(t)[x] == MatchAt(t, x)
  {
    TriedUpToAt(t, |t|, x);
  }

  /** The matches collected scanning a table from offset p, as re.findall collects
      them: a match is kept and the scan resumes at its end; without one the scan
      moves one character on. */
  function Scan(ms: seq<Option<Hit>>, p: nat): seq<Hit>
    requires p <= |ms| && IsTable(ms)
    decreases |ms| - p
  {
    if p == |ms| then []
    else
      match ms[p]
      case Some(h) => [h] + Scan(ms, h.next)
      case None => Scan(ms, p + 1)
  }

  /** Each hit of the scan from p is the table's entry at an offset from p on. */
  lemma {:induction false} ScanHit(ms: seq<Option<Hit>>, p: nat, k: nat)
    requires p <= |ms| && IsTable(ms) && k < |Scan(ms, p)|
    ensures p <= Scan(ms, p)[k].at < |ms| && ms[Scan(ms, p)[k].at] == Some(Scan(ms, p)[k])
    decreases |ms| - p
  {
    if ms[p].Some? {
      if k > 0 {
        ScanHit(ms, ms[p].value.next, k - 1);
      }
    } else {
      ScanHit(ms, p + 1, k);
    }
  }

  /** The hits are in text order and do not overlap. */
  lemma {:induction false} ScanOrdered(ms: seq<Option<Hit>>, p: nat, k: nat)
    requires p <= |ms| && IsTable(ms) && k + 1 < |Scan(ms, p)|
    ensures Scan(ms, p)[k].next <= Scan(ms, p)[k + 1].at
    decreases |ms| - p
  {
    if ms[p].Some? {
      var h := ms[p].value;
      if k > 0 {
        ScanOrdered(ms, h.next, k - 1);
      } else {
        ScanHit(ms, h.next, 0);
      }
    } else {
      ScanOrdered(ms, p + 1, k);
    }
  }

  /** Hit k of hits spans offset q, and is the match h when it starts at q. */
  predicate Covers(hits: seq<Hit>, q: nat, h: Hit, k: nat)
  {
    k < |hits| && hits[k].at <= q < hits[k].next && (hits[k].at == q ==> hits[k] == h)
  }

  /** No match is missed: an entry at offset q >= p is either a hit or starts inside
      an earlier hit, which the scan skipped over. */
  lemma {:induction false} ScanCovers(ms: seq<Option<Hit>>, p: nat, q: nat) returns (k: nat)
    requires p <= q < |ms| && IsTable(ms) && ms[q].Some?
    ensures Covers(Scan(ms, p), q, ms[q].value, k)
    decreases |ms| - p
  {
    var m := ms[p];
    if m.Some? && (p == q || q < m.value.next) {
      k := 0;
    } else if m.Some? {
      var k' := ScanCovers(ms, m.value.next, q);
      k := k' + 1;
    } else {
      k := ScanCovers(ms, p + 1, q);
    }
  }

  /** A table without entries from p on gives no hits. */
  lemma {:induction false} ScanNone(ms: seq<Option<Hit>>, p: nat)
    requires p <= |ms| && IsTable(ms)
    requires forall x :: p <= x < |ms| ==> ms[x].None?
    ensures Scan(ms, p) == []
    decreases |ms| - p
  {
    if p < |ms| {
      ScanNone(ms, p + 1);
    }
  }

  /** re.findall over the whole field. */
  function FindAll(t: string): seq<Hit>
  {
    Scan(Tried(t), 0)
  }

  /** Each hit found is a match of the pattern. */
  lemma FindAllSound(t: string, k: nat)
    requires k < |FindAll(t)|
    ensures HitShape(t, FindAll(t)[k])
  {
    ScanHit(Tried(t), 0, k);
    TriedAt(t, FindAll(t)[k].at);
    MatchAtSound(t, FindAll(t)[k].at);
  }

  /** The hits are in text order and do not overlap. */
  lemma FindAllOrdered(t: string, k: nat)
    requires k + 1 < |FindAll(t)|
    ensures FindAll(t)[k].next <= FindAll(t)[k + 1].at
  {
    ScanOrdered(Tried(t), 0, k);
  }

  /** Every match of the pattern in t is a hit, or starts inside an earlier hit. */
  lemma FindAllComplete(t: string, h: Hit) returns (k: nat)
    requires HitShape(t, h)
    ensures Covers(FindAll(t), h.at, h, k)
  {
    MatchAtComplete(t, h);
    TriedAt(t, h.at);
    k := ScanCovers(Tried(t), 0, h.at);
  }

  /** A text without the letter D holds no match; in particular the string "nan"
      that an empty cell turns into. */
  lemma NoKeywordNoHit(t: string)
    requires forall k :: 0 <= k < |t| ==> t[k] != 'D'
    ensures FindAll(t) == []
  {
    forall x | 0 <= x < |t| ensures Tried(t)[x].None? {
      TriedAt(t, x);
    }
    ScanNone(Tried(t), 0);
  }

  lemma NanNoHit()
    ensures FindAll("nan") == []
  {
    NoKeywordNoHit("nan");
  }

  /** The text DOMAIN da..db for two digit strings. */
  function Annotation(da: string, db: string): string
  {
    "DOMAIN" + " " + da + ".." + db
  }

  /** The text of one annotation, DOMAIN a..b. */
  function Item(a: nat, b: nat): string
  {
    Annotation(Dec(a), Dec(b))
  }

  /** A field listing the given spans, separated by "; ". */
  function Field(spans: seq<(nat, nat)>): string
  {
    if spans == [] then []
    else if |spans| == 1 then Item(spans[0].0, spans[0].1)
    else Item(spans[0].0, spans[0].1) + "; " + Field(spans[1..])
  }

  /** Where the pieces of DOMAIN da..db sit. */
  lemma AnnotationLayout(da: string, db: string)
    ensures var it := Annotation(da, db);
      && |it| == 9 + |da| + |db|
      && it[0] == 'D' && it[1] == 'O' && it[2] == 'M' && it[3] == 'A' && it[4] == 'I' && it[5] == 'N'
      && it[6] == ' '
      && it[7..7 + |da|] == da
      && it[7 + |da|] == '.' && it[8 + |da|] == '.'
      && it[9 + |da|..] == db
  {
    var head := "DOMAIN" + " ";
    assert Annotation(da, db) == head + da + ".." + db;
    assert (head + da + ".." + db)[7..7 + |da|] == da;
    assert (head + da + ".." + db)[9 + |da|..] == db;
  }

  /** The pieces of DOMAIN da..db written at offset p. */
  lemma AnnotationPieces(t: string, p: nat, da: string, db: string)
    requires p + |Annotation(da, db)| <= |t| && t[p..p + |Annotation(da, db)|] == Annotation(da, db)
    ensures |Annotation(da, db)| == 9 + |da| + |db|
    ensures KeywordAt(t, p) && t[p + 6] == ' '
    ensures t[p + 7..p + 7 + |da|] == da
    ensures t[p + 7 + |da|] == '.' && t[p + 8 + |da|] == '.'
    ensures t[p + 9 + |da|..p + 9 + |da| + |db|] == db
  {
    var it := Annotation(da, db);
    var n := |it|;
    AnnotationLayout(da, db);
    assert forall k :: 0 <= k < n ==> t[p + k] == it[k];
    assert t[p + 7..p + 7 + |da|] == it[7..7 + |da|];
    assert t[p + 9 + |da|..p + 9 + |da| + |db|] == it[9 + |da|..];
  }

  /** A digit string written at an offset puts digits there. */
  lemma DigitsAt(t: string, i: nat, j: nat, ds: string)
    requires i <= j <= |t| && t[i..j] == ds && AllDigits(ds)
    ensures forall k :: i <= k < j ==> IsDigit(t[k])
  {
    forall k | i <= k < j ensures IsDigit(t[k]) {
      assert t[k] == t[i..j][k - i];
    }
  }

  /** Offsets p < d < q that hold DOMAIN, one space, digits, two dots and digits
      not followed by another digit make a match. */
  lemma PiecesShape(t: string, p: nat, d: nat, q: nat)
    requires p + 7 < d && d + 2 < q <= |t|
    requires KeywordAt(t, p) && t[p + 6] == ' '
    requires AllDigits(t[p + 7..d]) && t[d] == '.' && t[d + 1] == '.' && AllDigits(t[d + 2..q])
    requires q == |t| || !IsDigit(t[q])
    ensures HitShape(t, Hit(p, p + 7, d, q, DecValue(t[p + 7..d]), DecValue(t[d + 2..q])))
  {
    DigitsAt(t, p + 7, d, t[p + 7..d]);
    DigitsAt(t, d + 2, q, t[d + 2..q]);
  }

  /** DOMAIN da..db written at offset p and not followed by a digit is a match
      whose numbers are the values of da and db. */
  lemma AnnotationShape(t: string, p: nat, da: string, db: string) returns (h: Hit)
    requires da != [] && AllDigits(da) && db != [] && AllDigits(db)
    requires p + |Annotation(da, db)| <= |t| && t[p..p + |Annotation(da, db)|] == Annotation(da, db)
    requires p + |Annotation(da, db)| == |t| || !IsDigit(t[p + |Annotation(da, db)|])
    ensures HitShape(t, h) && h.at == p && h.next == p + |Annotation(da, db)|
    ensures h.start == DecValue(da) && h.end == DecValue(db)
  {
    AnnotationPieces(t, p, da, db);
    var d, q := p + 7 + |da|, p + |Annotation(da, db)|;
    assert t[p + 7..d] == da && t[d + 2..q] == db;
    PiecesShape(t, p, d, q);
    h := Hit(p, p + 7, d, q, DecValue(t[p + 7..d]), DecValue(t[d + 2..q]));
  }

  /** The spans of the hits. */
  function Spans(hits: seq<Hit>): (r: seq<(nat, nat)>)
    ensures |r| == |hits|
  {
    if hits == [] then [] else [(hits[0].start, hits[0].end)] + Spans(hits[1..])
  }

  /** A field at offset p starts with its first annotation; when more follow,
      "; " comes next and then the field of the remaining spans. */
  lemma FieldLayout(t: string, p: nat, spans: seq<(nat, nat)>)
    requires p <= |t| && t[p..] == Field(spans) && spans != []
    ensures var n := |Item(spans[0].0, spans[0].1)|;
      && p + n <= |t| && t[p..p + n] == Item(spans[0].0, spans[0].1)
      && (|spans| == 1 ==> p + n == |t|)
      && (|spans| > 1 ==> p + n + 2 <= |t| && t[p + n] == ';' && t[p + n + 1] == ' '
                          && t[p + n + 2..] == Field(spans[1..]))
  {
    var it := Item(spans[0].0, spans[0].1);
    var n := |it|;
    if |spans| == 1 {
      assert t[p..] == it;
      assert t[p..p + n] == t[p..];
    } else {
      var rest := Field(spans[1..]);
      assert t[p..] == it + "; " + rest;
      assert t[p..p + n] == t[p..][..n];
      assert t[p + n] == t[p..][n] && t[p + n + 1] == t[p..][n + 1];
      assert t[p + n + 2..] == t[p..][n + 2..];
    }
  }

  /** Spans of a hit followed by more hits. */
  lemma SpansCons(h: Hit, hits: seq<Hit>)
    ensures Spans([h] + hits) == [(h.start, h.end)] + Spans(hits)
  {
    assert ([h] + hits)[1..] == hits;
  }

  /** From offset p on, the table holds the given spans one after the other, each
      next one two offsets after the previous match, where nothing matches, and the
      last match ends the text. */
  ghost predicate Listed(ms: seq<Option<Hit>>, p: nat, spans: seq<(nat, nat)>)
    requires p <= |ms|
    decreases |spans|
  {
    if spans == [] then p == |ms|
    else
      && p < |ms| && ms[p].Some?
      && var h := ms[p].value;
      && h.start == spans[0].0 && h.end == spans[0].1
      && (|spans| == 1 ==> h.next == |ms|)
      && (|spans| > 1 ==>
            && p < h.next && h.next + 2 <= |ms|
            && ms[h.next].None? && ms[h.next + 1].None?
            && Listed(ms, h.next + 2, spans[1..]))
  }

  /** Scanning a table laid out that way finds exactly those spans. */
  lemma {:induction false} ScanListed(ms: seq<Option<Hit>>, p: nat, spans: seq<(nat, nat)>)
    requires p <= |ms| && IsTable(ms) && Listed(ms, p, spans)
    ensures Spans(Scan(ms, p)) == spans
    decreases |spans|
  {
    if spans != [] {
      var h := ms[p].value;
      assert Scan(ms, p) == [h] + Scan(ms, h.next);
      SpansCons(h, Scan(ms, h.next));
      if |spans| > 1 {
        assert Scan(ms, h.next) == Scan(ms, h.next + 1);
        assert Scan(ms, h.next + 1) == Scan(ms, h.next + 2);
        ScanListed(ms, h.next + 2, spans[1..]);
        assert spans == [spans[0]] + spans[1..];
      }
    }
  }

  /** The first annotation of a field at offset p is a match whose end is followed
      by "; " when more annotations come. */
  lemma FieldHead(t: string, p: nat, spans: seq<(nat, nat)>) returns (h: Hit)
    requires p <= |t| && t[p..] == Field(spans) && spans != []
    ensures HitShape(t, h) && h.at == p
    ensures h.start == spans[0].0 && h.end == spans[0].1
    ensures h.next == p + |Item(spans[0].0, spans[0].1)|
    ensures |spans| == 1 ==> h.next == |t|
    ensures |spans| > 1 ==> h.next + 2 <= |t| && t[h.next] == ';' && t[h.next + 1] == ' '
                            && t[h.next + 2..] == Field(spans[1..])
  {
    var a := spans[0].0;
    var b := spans[0].1;
    FieldLayout(t, p, spans);
    assert Item(a, b) == Annotation(Dec(a), Dec(b));
    h := AnnotationShape(t, p, Dec(a), Dec(b));
    DecRoundTrip(a);
    DecRoundTrip(b);
  }

  /** One step of the layout: a match at p gives the first span, then two offsets
      where nothing matches and the rest. */
  lemma ListedStep(ms: seq<Option<Hit>>, p: nat, spans: seq<(nat, nat)>, h: Hit)
    requires p < |ms| && spans != [] && ms[p] == Some(h)
    requires h.start == spans[0].0 && h.end == spans[0].1
    requires |spans| == 1 ==> h.next == |ms|
    requires |spans| > 1 ==> p < h.next && h.next + 2 <= |ms| && ms[h.next].None? && ms[h.next + 1].None?
                             && Listed(ms, h.next + 2, spans[1..])
    ensures Listed(ms, p, spans)
  {
  }

  /** A match of the pattern is the table's entry at its offset. */
  lemma HitTried(t: string, h: Hit)
    requires HitShape(t, h)
    ensures h.at < |t| && Tried(t)[h.at] == Some(h)
  {
    MatchAtComplete(t, h);
    TriedAt(t, h.at);
  }

  /** Nothing matches at a semicolon or a space. */
  lemma NoMatchAtSeparator(t: string, x: nat)
    requires x < |t| && (t[x] == ';' || t[x] == ' ')
    ensures Tried(t)[x].None?
  {
    TriedAt(t, x);
  }

  /** The same, as the table of t records it: the first annotation is the entry at
      p, and nothing matches on the separator after it. */
  lemma FieldHeadTried(t: string, p: nat, spans: seq<(nat, nat)>) returns (h: Hit)
    requires p <= |t| && t[p..] == Field(spans) && spans != []
    ensures p < |t| && Tried(t)[p] == Some(h)
    ensures h.start == spans[0].0 && h.end == spans[0].1
    ensures |spans| == 1 ==> h.next == |t|
    ensures |spans| > 1 ==> p < h.next && h.next + 2 <= |t|
                            && Tried(t)[h.next].None? && Tried(t)[h.next + 1].None?
                            && t[h.next + 2..] == Field(spans[1..])
  {
    h := FieldHead(t, p, spans);
    HitTried(t, h);
    if |spans| > 1 {
      NoMatchAtSeparator(t, h.next);
      NoMatchAtSeparator(t, h.next + 1);
    }
  }

  /** A field written from a list of spans is laid out that way. */
  lemma {:induction false} FieldListed(t: string, p: nat, spans: seq<(nat, nat)>)
    requires p <= |t| && t[p..] == Field(spans)
    ensures Listed(Tried(t), p, spans)
    decreases |spans|
  {
    if spans == [] {
      assert |t[p..]| == 0;
    } else {
      var h := FieldHeadTried(t, p, spans);
      if |spans| > 1 {
        FieldListed(t, h.next + 2, spans[1..]);
      }
      ListedStep(Tried(t), p, spans, h);
    }
  }

  /** Reading back a field written from a list of spans gives that list. */
  lemma FieldRoundTrip(spans: seq<(nat, nat)>)
    ensures Spans(FindAll(Field(spans))) == spans
  {
    FieldListed(Field(spans), 0, spans);
    ScanListed(Tried(Field(spans)), 0, spans);
  }
}
