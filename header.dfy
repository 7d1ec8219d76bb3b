/** The UniProt header pattern of domains.py:
      ^(?:\w+\|)?(?P<acc>[^|>\s]+)\|(?P<id>[^ \t|]+)\s*(?P<desc>.*)$
    matched with re.match, written out as a backtracking-free scanner. */
module UniProtHeader {
  import opened Wrappers
  import opened Text

  datatype HeaderFields = HeaderFields(acc: string, entryName: string, desc: string)

  /** `.*$` from offset t: `.` stops at a line feed, `$` holds at the end
      or just before a final line feed. */
  predicate TailMatches(s: string, t: nat)
  {
    forall k :: t <= k < |s| - 1 ==> s[k] != '\n'
  }

  /** The text `.*` captured from offset t. */
  function TailText(s: string, t: nat): string
    requires t <= |s|
  {
    if t < |s| && s[|s| - 1] == '\n' then s[t..|s| - 1] else s[t..]
  }

  /** The pattern after the optional prefix, tried at offset p. Every repetition is
      followed by a character its class excludes, so the greedy run is the only
      candidate and no backtracking inside this part can succeed where it fails. */
  function MatchFrom(s: string, p: nat): Option<HeaderFields>
    requires p <= |s|
  {
    var a := RunEnd(s, p, AccChar);
    if a == p || a == |s| || s[a] != '|' then None
    else
      var i := RunEnd(s, a + 1, IdChar);
      if i == a + 1 then None
      else
        var t := RunEnd(s, i, Space);
        if TailMatches(s, t) then Some(HeaderFields(s[p..a], s[a + 1..i], TailText(s, t)))
        else None
  }

  /** _header_re.match(s): the optional `\w+\|` prefix is tried first and is dropped
      again when the rest of the pattern fails after it. */
  function MatchHeader(s: string): Option<HeaderFields>
  {
    var k := RunEnd(s, 0, Word);
    if 0 < k < |s| && s[k] == '|' && MatchFrom(s, k + 1).Some? then MatchFrom(s, k + 1)
    else MatchFrom(s, 0)
  }

  /** The optional group (?:\w+\|). */
  ghost predicate IsPrefixGroup(pre: string)
  {
    pre == [] || (|pre| >= 2 && pre[|pre| - 1] == '|' && forall k :: 0 <= k < |pre| - 1 ==> IsWordChar(pre[k]))
  }

  /** The strings the pattern sets out: s is prefix, accession, "|", entry name,
      whitespace, description and possibly a final line feed. */
  ghost predicate HeaderShape(s: string, pre: string, acc: string, id: string, ws: string, desc: string, nl: string)
  {
    && IsPrefixGroup(pre)
    && |acc| > 0 && (forall k :: 0 <= k < |acc| ==> IsAccChar(acc[k]))
    && |id| > 0 && (forall k :: 0 <= k < |id| ==> IsIdChar(id[k]))
    && (forall k :: 0 <= k < |ws| ==> IsSpace(ws[k]))
    && (forall k :: 0 <= k < |desc| ==> desc[k] != '\n')
    && (nl == [] || nl == "\n")
    && s == pre + acc + "|" + id + ws + desc + nl
  }

  /** The pattern after the prefix, given by offsets: the accession runs from p to a
      (where the "|" stands), the entry name to i, the whitespace to t and the
      description to e, which is the end of s or the offset of a final line feed. */
  ghost predicate BodyAt(s: string, p: nat, a: nat, i: nat, t: nat, e: nat)
  {
    && p < a && a + 1 < i <= t <= e <= |s|
    && s[a] == '|'
    && (forall k :: p <= k < a ==> IsAccChar(s[k]))
    && (forall k :: a < k < i ==> IsIdChar(s[k]))
    && (forall k :: i <= k < t ==> IsSpace(s[k]))
    && (forall k :: t <= k < e ==> s[k] != '\n')
    && (e == |s| || (e + 1 == |s| && s[e] == '\n'))
  }

  /** The whole decomposition given by offsets, the prefix ending at p. */
  ghost predicate ShapeAt(s: string, p: nat, a: nat, i: nat, t: nat, e: nat)
  {
    BodyAt(s, p, a, i, t, e) && IsPrefixGroup(s[..p])
  }

  /** Cutting s at the offsets and joining the pieces around the "|" gives s back. */
  lemma OffsetsJoin(s: string, p: nat, a: nat, i: nat, t: nat, e: nat)
    requires p <= a < i <= t <= e <= |s| && s[a] == '|'
    ensures s == s[..p] + s[p..a] + "|" + s[a + 1..i] + s[i..t] + s[t..e] + s[e..]
  {
    assert s[..a] == s[..p] + s[p..a];
    assert s[..a + 1] == s[..a] + "|";
    assert s[..i] == s[..a + 1] + s[a + 1..i];
    assert s[..t] == s[..i] + s[i..t];
    assert s[..e] == s[..t] + s[t..e];
    assert s == s[..e] + s[e..];
  }

  /** The pieces of s joined around the "|" are found again at their offsets. */
  lemma JoinOffsets(s: string, pre: string, acc: string, id: string, ws: string, desc: string, nl: string)
    requires s == pre + acc + "|" + id + ws + desc + nl
    ensures var p := |pre|; var a := p + |acc|; var i := a + 1 + |id|; var t := i + |ws|; var e := t + |desc|;
      && e + |nl| == |s| && s[a] == '|'
      && s[..p] == pre && s[p..a] == acc && s[a + 1..i] == id && s[i..t] == ws && s[t..e] == desc && s[e..] == nl
  {
    var p := |pre|;
    var a := p + |acc|;
    var i := a + 1 + |id|;
    var t := i + |ws|;
    var e := t + |desc|;
    assert s[..p] == pre && s[p..a] == acc && s[a + 1..i] == id && s[i..t] == ws && s[t..e] == desc && s[e..] == nl;
  }

  lemma ShapeAtIsShape(s: string, p: nat, a: nat, i: nat, t: nat, e: nat)
    requires ShapeAt(s, p, a, i, t, e)
    ensures HeaderShape(s, s[..p], s[p..a], s[a + 1..i], s[i..t], s[t..e], s[e..])
  {
    OffsetsJoin(s, p, a, i, t, e);
    var acc, id, ws, desc := s[p..a], s[a + 1..i], s[i..t], s[t..e];
    assert forall k :: 0 <= k < |acc| ==> IsAccChar(acc[k]);
    assert forall k :: 0 <= k < |id| ==> id[k] == s[a + 1 + k] && IsIdChar(id[k]);
    assert forall k :: 0 <= k < |ws| ==> IsSpace(ws[k]);
    assert forall k :: 0 <= k < |desc| ==> desc[k] != '\n';
    assert s[e..] == [] || s[e..] == "\n";
  }

  lemma ShapeIsShapeAt(s: string, pre: string, acc: string, id: string, ws: string, desc: string, nl: string)
    requires HeaderShape(s, pre, acc, id, ws, desc, nl)
    ensures var p := |pre|; var a := p + |acc|; var i := a + 1 + |id|; var t := i + |ws|; var e := t + |desc|;
      && ShapeAt(s, p, a, i, t, e)
      && s[..p] == pre && s[p..a] == acc && s[a + 1..i] == id && s[i..t] == ws && s[t..e] == desc
      && (ws != [] ==> s[i] == ws[0]) && (desc != [] ==> s[t] == desc[0])
  {
    JoinOffsets(s, pre, acc, id, ws, desc, nl);
    var p := |pre|;
    var a := p + |acc|;
    var i := a + 1 + |id|;
    var t := i + |ws|;
    var e := t + |desc|;
    forall k | p <= k < a ensures IsAccChar(s[k]) {
      assert s[k] == acc[k - p];
    }
    forall k | a < k < i ensures IsIdChar(s[k]) {
      assert s[k] == id[k - a - 1];
    }
    forall k | i <= k < t ensures IsSpace(s[k]) {
      assert s[k] == ws[k - i];
    }
    forall k | t <= k < e ensures s[k] != '\n' {
      assert s[k] == desc[k - t];
    }
  }

  /** A match found at offset p comes from offsets the pattern allows, the
      entry name and the whitespace run being maximal. */
  lemma MatchFromOffsets(s: string, p: nat) returns (a: nat, i: nat, t: nat, e: nat)
    requires p <= |s| && MatchFrom(s, p).Some?
    ensures BodyAt(s, p, a, i, t, e)
    ensures i == |s| || !IsIdChar(s[i])
    ensures t == e || !IsSpace(s[t])
    ensures MatchFrom(s, p) == Some(HeaderFields(s[p..a], s[a + 1..i], s[t..e]))
  {
    a := RunEnd(s, p, AccChar);
    i := RunEnd(s, a + 1, IdChar);
    t := RunEnd(s, i, Space);
    e := if t < |s| && s[|s| - 1] == '\n' then |s| - 1 else |s|;
    RunEndProps(s, p, AccChar);
    RunEndProps(s, a + 1, IdChar);
    RunEndProps(s, i, Space);
    assert TailText(s, t) == s[t..e];
  }

  /** What follows an entry name ending at i, cut at t and e, starts with the
      character at i. */
  lemma NameEnd(s: string, i: nat, t: nat, e: nat)
    requires i <= t <= e <= |s|
    requires i == |s| || !IsIdChar(s[i])
    ensures var rest := s[i..t] + s[t..e] + s[e..]; rest == [] || !IsIdChar(rest[0])
  {
    assert s[i..t] + s[t..e] + s[e..] == s[i..];
    if i < |s| {
      assert s[i..][0] == s[i];
    }
  }

  /** A match found at offset p splits s the way the pattern says, with the entry name
      as long as possible and the description not starting with whitespace. */
  lemma MatchFromSound(s: string, p: nat) returns (ws: string, nl: string)
    requires p <= |s| && MatchFrom(s, p).Some? && IsPrefixGroup(s[..p])
    ensures var g := MatchFrom(s, p).value;
      && HeaderShape(s, s[..p], g.acc, g.entryName, ws, g.desc, nl)
      && (ws + g.desc + nl == [] || !IsIdChar((ws + g.desc + nl)[0]))
      && (g.desc == [] || !IsSpace(g.desc[0]))
  {
    var a, i, t, e := MatchFromOffsets(s, p);
    ShapeAtIsShape(s, p, a, i, t, e);
    ws, nl := s[i..t], s[e..];
    NameEnd(s, i, t, e);
    if t < e {
      assert s[t..e][0] == s[t];
    }
  }

  /** The word run of the first scan, followed by "|", is a prefix group. */
  lemma WordPrefix(s: string, k: nat)
    requires k == RunEnd(s, 0, Word) && 0 < k < |s| && s[k] == '|'
    ensures IsPrefixGroup(s[..k + 1])
  {
    RunEndProps(s, 0, Word);
  }

  /** Whatever the matcher returns is a decomposition the pattern allows, with the
      entry name as long as possible and the description not starting with
      whitespace. */
  lemma MatchHeaderSound(s: string) returns (pre: string, ws: string, nl: string)
    requires MatchHeader(s).Some?
    ensures var g := MatchHeader(s).value;
      && HeaderShape(s, pre, g.acc, g.entryName, ws, g.desc, nl)
      && (ws + g.desc + nl == [] || !IsIdChar((ws + g.desc + nl)[0]))
      && (g.desc == [] || !IsSpace(g.desc[0]))
  {
    var k := RunEnd(s, 0, Word);
    if 0 < k < |s| && s[k] == '|' && MatchFrom(s, k + 1).Some? {
      WordPrefix(s, k);
      pre := s[..k + 1];
      ws, nl := MatchFromSound(s, k + 1);
    } else {
      pre := s[..0];
      ws, nl := MatchFromSound(s, 0);
    }
  }

  /** Given a decomposition at p, the scan from p succeeds with the same accession. */
  lemma MatchFromComplete(s: string, p: nat, a: nat, i0: nat, t0: nat, e: nat)
    requires ShapeAt(s, p, a, i0, t0, e)
    ensures MatchFrom(s, p).Some? && MatchFrom(s, p).value.acc == s[p..a]
  {
    RunEndExact(s, p, a, AccChar);
    var i := RunEnd(s, a + 1, IdChar);
    RunEndAtLeast(s, a + 1, i0, IdChar);
    var t := RunEnd(s, i, Space);
    if i < t0 {
      RunEndAtLeast(s, i, t0, Space);
    }
    assert TailMatches(s, t);
    MatchFromRuns(s, p, a, i, t);
  }

  /** MatchFrom once its three runs are known. */
  lemma MatchFromRuns(s: string, p: nat, a: nat, i: nat, t: nat)
    requires p < a < |s| && s[a] == '|' && a + 1 < i <= t <= |s|
    requires RunEnd(s, p, AccChar) == a && RunEnd(s, a + 1, IdChar) == i && RunEnd(s, i, Space) == t
    requires TailMatches(s, t)
    ensures MatchFrom(s, p) == Some(HeaderFields(s[p..a], s[a + 1..i], TailText(s, t)))
  {
  }

  /** Where the whitespace run after the entry name ends, and what the tail captures. */
  lemma SpaceRun(s: string, p: nat, a: nat, i0: nat, t0: nat, e: nat) returns (t: nat)
    requires BodyAt(s, p, a, i0, t0, e)
    requires t0 == e || !IsSpace(s[t0])
    ensures i0 <= t <= |s| && RunEnd(s, i0, Space) == t
    ensures TailMatches(s, t) && TailText(s, t) == s[t0..e]
  {
    if t0 < e {
      t := t0;
      RunEndExact(s, i0, t0, Space);
      assert TailText(s, t0) == s[t0..e];
    } else {
      t := |s|;
      assert forall k :: i0 <= k < |s| ==> IsSpace(s[k]);
      RunEndExact(s, i0, |s|, Space);
    }
  }

  /** With a maximal entry name and a description that does not start with
      whitespace, the scan from p returns exactly the decomposition's groups. */
  lemma MatchFromExact(s: string, p: nat, a: nat, i0: nat, t0: nat, e: nat)
    requires ShapeAt(s, p, a, i0, t0, e)
    requires i0 == |s| || !IsIdChar(s[i0])
    requires t0 == e || !IsSpace(s[t0])
    ensures MatchFrom(s, p) == Some(HeaderFields(s[p..a], s[a + 1..i0], s[t0..e]))
  {
    RunEndExact(s, p, a, AccChar);
    RunEndExact(s, a + 1, i0, IdChar);
    var t := SpaceRun(s, p, a, i0, t0, e);
    MatchFromRuns(s, p, a, i0, t);
  }

  /** MatchHeaderComplete stated on offsets. */
  lemma MatchHeaderCompleteAt(s: string, p: nat, a: nat, i: nat, t: nat, e: nat)
    requires ShapeAt(s, p, a, i, t, e)
    ensures MatchHeader(s).Some?
    ensures p > 0 ==> MatchHeader(s).value.acc == s[p..a]
  {
    MatchFromComplete(s, p, a, i, t, e);
    if p > 0 {
      PrefixTaken(s, p);
    }
  }

  /** A `word|` prefix ending at p is what the matcher's first scan finds. */
  lemma PrefixTaken(s: string, p: nat)
    requires 0 < p <= |s| && IsPrefixGroup(s[..p])
    ensures RunEnd(s, 0, Word) == p - 1 && s[p - 1] == '|'
  {
    assert forall j :: 0 <= j < p - 1 ==> IsWordChar(s[j]) by {
      assert forall j :: 0 <= j < p - 1 ==> s[j] == s[..p][j];
    }
    assert s[p - 1] == s[..p][p - 1];
    RunEndExact(s, 0, p - 1, Word);
  }

  /** MatchHeaderExact stated on offsets. */
  lemma MatchHeaderExactAt(s: string, p: nat, a: nat, i: nat, t: nat, e: nat, acc: string, id: string, desc: string)
    requires ShapeAt(s, p, a, i, t, e) && p > 0
    requires i == |s| || !IsIdChar(s[i])
    requires t == e || !IsSpace(s[t])
    requires acc == s[p..a] && id == s[a + 1..i] && desc == s[t..e]
    ensures MatchHeader(s) == Some(HeaderFields(acc, id, desc))
  {
    PrefixTaken(s, p);
    MatchFromExact(s, p, a, i, t, e);
  }

  /** Every string of the pattern's language is matched, and when the decomposition
      uses the `word|` prefix the matcher takes it too and returns that accession. */
  lemma MatchHeaderComplete(s: string, pre: string, acc: string, id: string, ws: string, desc: string, nl: string)
    requires HeaderShape(s, pre, acc, id, ws, desc, nl)
    ensures MatchHeader(s).Some?
    ensures pre != [] ==> MatchHeader(s).value.acc == acc
  {
    ShapeIsShapeAt(s, pre, acc, id, ws, desc, nl);
    MatchHeaderCompleteAt(s, |pre|, |pre| + |acc|, |pre| + |acc| + 1 + |id|,
      |pre| + |acc| + 1 + |id| + |ws|, |pre| + |acc| + 1 + |id| + |ws| + |desc|);
  }

  /** Without a prefix, an entry name ended by a space or tab (or by the end of s)
      leaves the matcher's first attempt, with the accession taken as a prefix,
      nothing to match, so the pattern is matched from offset 0. */
  lemma NoPrefixAttempt(s: string, a: nat, i: nat, t: nat, e: nat)
    requires ShapeAt(s, 0, a, i, t, e)
    requires i == |s| || s[i] == ' ' || s[i] == '\t'
    ensures MatchHeader(s) == MatchFrom(s, 0)
  {
    var k := RunEnd(s, 0, Word);
    RunEndProps(s, 0, Word);
    if 0 < k < |s| && s[k] == '|' {
      assert k == a;
      var a' := RunEnd(s, a + 1, AccChar);
      RunEndProps(s, a + 1, AccChar);
      if a' > i {
        assert IsAccChar(s[i]);
      }
      assert a' < |s| ==> s[a'] != '|';
    }
  }

  /** MatchHeaderExact without a prefix, stated on offsets. */
  lemma MatchHeaderExactBare(s: string, a: nat, i: nat, t: nat, e: nat, acc: string, id: string, desc: string)
    requires ShapeAt(s, 0, a, i, t, e)
    requires i == |s| || s[i] == ' ' || s[i] == '\t'
    requires t == e || !IsSpace(s[t])
    requires acc == s[0..a] && id == s[a + 1..i] && desc == s[t..e]
    ensures MatchHeader(s) == Some(HeaderFields(acc, id, desc))
  {
    NoPrefixAttempt(s, a, i, t, e);
    MatchFromExact(s, 0, a, i, t, e);
  }

  /** With an entry name ended by a space or tab (or by the end of the header) and a
      description not starting with whitespace, the matcher returns exactly the
      decomposition's groups, with or without the `word|` prefix. */
  lemma MatchHeaderExact(s: string, pre: string, acc: string, id: string, ws: string, desc: string, nl: string)
    requires HeaderShape(s, pre, acc, id, ws, desc, nl)
    requires (ws == [] && desc == [] && nl == []) || (ws != [] && !IsIdChar(ws[0]))
    requires desc == [] || !IsSpace(desc[0])
    ensures MatchHeader(s) == Some(HeaderFields(acc, id, desc))
  {
    ShapeIsShapeAt(s, pre, acc, id, ws, desc, nl);
    var p := |pre|;
    var a := p + |acc|;
    var i := a + 1 + |id|;
    var t := i + |ws|;
    var e := t + |desc|;
    if p > 0 {
      MatchHeaderExactAt(s, p, a, i, t, e, acc, id, desc);
    } else {
      MatchHeaderExactBare(s, a, i, t, e, acc, id, desc);
    }
  }

  lemma SwissProtPrefix()
    ensures IsPrefixGroup("sp|")
  {
    forall k | 0 <= k < 2 ensures IsWordChar("sp|"[k]) {
      assert k in {0, 1};
    }
  }

  lemma SwissProtAcc()
    ensures forall k :: 0 <= k < |"Q9XYZ1"| ==> IsAccChar("Q9XYZ1"[k])
  {
    forall k | 0 <= k < 6 ensures IsAccChar("Q9XYZ1"[k]) {
      assert k in {0, 1, 2, 3, 4, 5};
    }
  }

  lemma SwissProtId()
    ensures forall k :: 0 <= k < |"EXAMPLE_HUMAN"| ==> IsIdChar("EXAMPLE_HUMAN"[k])
  {
    forall k | 0 <= k < 13 ensures IsIdChar("EXAMPLE_HUMAN"[k]) {
      assert k in {0, 1, 2, 3, 4, 5, 6, 7, 8, 9, 10, 11, 12};
    }
  }

  lemma SwissProtDesc()
    ensures forall k :: 0 <= k < |"Example protein"| ==> "Example protein"[k] != '\n'
  {
    forall k | 0 <= k < 15 ensures "Example protein"[k] != '\n' {
      assert k in {0, 1, 2, 3, 4, 5, 6, 7, 8, 9, 10, 11, 12, 13, 14};
    }
  }

  lemma SwissProtJoin()
    ensures "sp|Q9XYZ1|EXAMPLE_HUMAN Example protein"
      == "sp|" + "Q9XYZ1" + "|" + "EXAMPLE_HUMAN" + " " + "Example protein" + ""
  {
    assert "sp|" + "Q9XYZ1" == "sp|Q9XYZ1";
    assert "sp|Q9XYZ1" + "|" == "sp|Q9XYZ1|";
    assert "sp|Q9XYZ1|" + "EXAMPLE_HUMAN" == "sp|Q9XYZ1|EXAMPLE_HUMAN";
    assert "sp|Q9XYZ1|EXAMPLE_HUMAN" + " " == "sp|Q9XYZ1|EXAMPLE_HUMAN ";
    assert "sp|Q9XYZ1|EXAMPLE_HUMAN " + "Example protein" == "sp|Q9XYZ1|EXAMPLE_HUMAN Example protein";
  }

  /** The header of a Swiss-Prot record, split the way the pattern reads it. */
  lemma SwissProtShape()
    ensures HeaderShape("sp|Q9XYZ1|EXAMPLE_HUMAN Example protein",
      "sp|", "Q9XYZ1", "EXAMPLE_HUMAN", " ", "Example protein", "")
  {
    SwissProtJoin();
    SwissProtPrefix();
    SwissProtAcc();
    SwissProtId();
    SwissProtDesc();
    assert IsSpace(" "[0]);
  }

  /** The Swiss-Prot header gives accession Q9XYZ1, entry name EXAMPLE_HUMAN and
      description "Example protein". */
  lemma SwissProtExample()
    ensures MatchHeader("sp|Q9XYZ1|EXAMPLE_HUMAN Example protein")
      == Some(HeaderFields("Q9XYZ1", "EXAMPLE_HUMAN", "Example protein"))
  {
    SwissProtShape();
    MatchHeaderExact("sp|Q9XYZ1|EXAMPLE_HUMAN Example protein",
      "sp|", "Q9XYZ1", "EXAMPLE_HUMAN", " ", "Example protein", "");
  }

  /** A `word|` prefix after which the rest fails is given back: "Q9|X d" has accession Q9. */
  lemma PrefixBacktrackExample()
    ensures MatchHeader("Q9|X d") == Some(HeaderFields("Q9", "X", "d"))
  {
    var s := "Q9|X d";
    RunEndExact(s, 0, 2, Word);
    RunEndExact(s, 3, 4, AccChar);
    assert MatchFrom(s, 3) == None;
    RunEndExact(s, 0, 2, AccChar);
    RunEndExact(s, 3, 4, IdChar);
    RunEndExact(s, 4, 5, Space);
    assert s[0..2] == "Q9" && s[3..4] == "X" && s[5..] == "d";
  }
}
