/** Character classes and string helpers shared by the three scripts:
    Python's whitespace, \w, \d and isalpha classes, str.strip, str.upper,
    decimal rendering and parsing, slicing with Python's index rules. */
module Text {

  /** The ASCII part of Python's whitespace: the characters below 128 that
      str.strip(), str.split() and the regular-expression class \s treat as
      whitespace (tab to carriage return, the four separators 0x1C-0x1F, space). */
  predicate IsSpace(c: char)
  {
    ('\t' <= c <= '\r') || ('\U{1C}' <= c <= ' ')
  }

  /** The regular-expression class \d, restricted to ASCII digits. */
  predicate IsDigit(c: char) { '0' <= c <= '9' }

  /** str.isalpha(), restricted to ASCII letters. */
  predicate IsAlpha(c: char) { ('a' <= c <= 'z') || ('A' <= c <= 'Z') }

  /** The regular-expression class \w, restricted to ASCII. */
  predicate IsWordChar(c: char) { IsAlpha(c) || IsDigit(c) || c == '_' }

  /** The header pattern's accession class [^|>\s]. */
  predicate IsAccChar(c: char) { c != '|' && c != '>' && !IsSpace(c) }

  /** The header pattern's entry-name class [^ \t|]. */
  predicate IsIdChar(c: char) { c != ' ' && c != '\t' && c != '|' }

  predicate NotSpace(c: char) { !IsSpace(c) }

  /** The classes the scanners repeat greedily. */
  datatype CharClass = Space | Digit | Word | AccChar | IdChar | NonSpace

  predicate InClass(c: char, cls: CharClass)
  {
    match cls
    case Space => IsSpace(c)
    case Digit => IsDigit(c)
    case Word => IsWordChar(c)
    case AccChar => IsAccChar(c)
    case IdChar => IsIdChar(c)
    case NonSpace => NotSpace(c)
  }

  predicate AllDigits(s: string) { forall k :: 0 <= k < |s| ==> IsDigit(s[k]) }

  /** End of the longest run of characters of a class starting at i
      (a greedy character-class repetition in a regular expression). */
  function RunEnd(s: string, i: nat, cls: CharClass): (j: nat)
    requires i <= |s|
    ensures i <= j <= |s|
    decreases |s| - i
  {
    if i < |s| && InClass(s[i], cls) then RunEnd(s, i + 1, cls) else i
  }

  /** The run is made of class characters and is followed by the end of the
      string or by a character outside the class. */
  lemma {:induction false} RunEndProps(s: string, i: nat, cls: CharClass)
    requires i <= |s|
    ensures forall k :: i <= k < RunEnd(s, i, cls) ==> InClass(s[k], cls)
    ensures RunEnd(s, i, cls) < |s| ==> !InClass(s[RunEnd(s, i, cls)], cls)
    decreases |s| - i
  {
    if i < |s| && InClass(s[i], cls) {
      RunEndProps(s, i + 1, cls);
    }
  }

  /** The run end is determined by its two defining facts. */
  lemma {:induction false} RunEndExact(s: string, i: nat, j: nat, cls: CharClass)
    requires i <= j <= |s|
    requires forall k :: i <= k < j ==> InClass(s[k], cls)
    requires j < |s| ==> !InClass(s[j], cls)
    ensures RunEnd(s, i, cls) == j
    decreases j - i
  {
    if i < j {
      RunEndExact(s, i + 1, j, cls);
    }
  }

  /** A run that starts with j - i class characters ends at j or later. */
  lemma {:induction false} RunEndAtLeast(s: string, i: nat, j: nat, cls: CharClass)
    requires i <= j <= |s|
    requires forall k :: i <= k < j ==> InClass(s[k], cls)
    ensures RunEnd(s, i, cls) >= j
    decreases j - i
  {
    if i < j {
      RunEndAtLeast(s, i + 1, j, cls);
    }
  }

  /** Leading whitespace removed (str.lstrip). */
  function TrimLeft(s: string): (r: string)
    ensures |r| <= |s| && r == s[|s| - |r|..]
    ensures forall k :: 0 <= k < |s| - |r| ==> IsSpace(s[k])
    ensures r == [] || !IsSpace(r[0])
  {
    RunEndProps(s, 0, Space);
    s[RunEnd(s, 0, Space)..]
  }

  /** Trailing whitespace removed (str.rstrip). */
  function TrimRight(s: string): (r: string)
    ensures |r| <= |s| && r == s[..|r|]
    ensures forall k :: |r| <= k < |s| ==> IsSpace(s[k])
    ensures r == [] || !IsSpace(r[|r| - 1])
  {
    if s != [] && IsSpace(s[|s| - 1]) then TrimRight(s[..|s| - 1]) else s
  }

  /** str.strip(). */
  function Strip(s: string): (r: string)
    ensures r == [] || (!IsSpace(r[0]) && !IsSpace(r[|r| - 1]))
  {
    TrimRight(TrimLeft(s))
  }

  /** lstrip() removes exactly the leading run of whitespace. */
  lemma TrimLeftAt(s: string, j: nat)
    requires j <= |s| && (forall k :: 0 <= k < j ==> IsSpace(s[k]))
    requires j == |s| || !IsSpace(s[j])
    ensures TrimLeft(s) == s[j..]
  {
    var r := TrimLeft(s);
    var m := |s| - |r|;
    if m < j {
      assert false;
    }
    if m > j {
      assert false;
    }
  }

  /** Leading whitespace does not change what str.strip() returns. */
  lemma StripLeadingSpace(ws: string, x: string)
    requires forall k :: 0 <= k < |ws| ==> IsSpace(ws[k])
    ensures Strip(ws + x) == Strip(x)
  {
    var l := TrimLeft(x);
    var j := |ws| + (|x| - |l|);
    var s := ws + x;
    forall k | 0 <= k < j ensures IsSpace(s[k]) {
      if k >= |ws| { assert s[k] == x[k - |ws|]; }
    }
    if j < |s| {
      assert s[j] == l[0];
    }
    TrimLeftAt(s, j);
    assert s[j..] == l;
  }

  /** str.strip() removes whitespace only, and all of it, from both ends: the result
      is the slice s[i..i + |r|] with only whitespace before and after it. */
  lemma StripSlice(s: string) returns (i: nat)
    ensures i + |Strip(s)| <= |s| && Strip(s) == s[i..i + |Strip(s)|]
    ensures forall k :: 0 <= k < i ==> IsSpace(s[k])
    ensures forall k :: i + |Strip(s)| <= k < |s| ==> IsSpace(s[k])
    ensures Strip(s) == [] || (!IsSpace(Strip(s)[0]) && !IsSpace(Strip(s)[|Strip(s)| - 1]))
  {
    var l := TrimLeft(s);
    i := |s| - |l|;
    var r := TrimRight(l);
    assert Strip(s) == r;
    assert r == s[i..i + |r|];
    forall k | i + |r| <= k < |s| ensures IsSpace(s[k]) {
      assert s[k] == l[k - i];
    }
  }

  /** str.upper(), restricted to ASCII letters. */
  function ToUpper(s: string): (r: string)
    ensures |r| == |s|
    ensures forall k :: 0 <= k < |s| ==> r[k] == if 'a' <= s[k] <= 'z' then (s[k] as int - 32) as char else s[k]
  {
    if s == [] then []
    else [if 'a' <= s[0] <= 'z' then (s[0] as int - 32) as char else s[0]] + ToUpper(s[1..])
  }

  /** "".join(c for c in s if c.isalpha()). */
  function KeepAlpha(s: string): (r: string)
    ensures |r| <= |s|
    ensures forall k :: 0 <= k < |r| ==> IsAlpha(r[k])
  {
    if s == [] then []
    else (if IsAlpha(s[0]) then [s[0]] else []) + KeepAlpha(s[1..])
  }

  /** Filtering a concatenation filters each part: letters are kept in order. */
  lemma {:induction false} KeepAlphaAppend(a: string, b: string)
    ensures KeepAlpha(a + b) == KeepAlpha(a) + KeepAlpha(b)
    decreases |a|
  {
    if a == [] {
      assert a + b == b;
    } else {
      assert (a + b)[1..] == a[1..] + b;
      KeepAlphaAppend(a[1..], b);
    }
  }

  /** A line made of letters is kept whole. */
  lemma {:induction false} KeepAlphaLetters(s: string)
    requires forall k :: 0 <= k < |s| ==> IsAlpha(s[k])
    ensures KeepAlpha(s) == s
    decreases |s|
  {
    if s != [] {
      KeepAlphaLetters(s[1..]);
    }
  }

  /** A line without letters is emptied. */
  lemma {:induction false} KeepAlphaNoLetters(s: string)
    requires forall k :: 0 <= k < |s| ==> !IsAlpha(s[k])
    ensures KeepAlpha(s) == []
    decreases |s|
  {
    if s != [] {
      KeepAlphaNoLetters(s[1..]);
    }
  }

  /** Each character of the line is kept exactly when it is a letter. */
  lemma KeepAlphaInsert(a: string, c: char, b: string)
    ensures KeepAlpha(a + [c] + b) == KeepAlpha(a) + (if IsAlpha(c) then [c] else []) + KeepAlpha(b)
  {
    KeepAlphaAppend(a + [c], b);
    KeepAlphaAppend(a, [c]);
    assert [c][1..] == [];
  }

  /** Appending is associative: the step every loop that appends a block takes. */
  lemma AppendAssoc<T>(a: seq<T>, b: seq<T>, c: seq<T>)
    ensures (a + b) + c == a + (b + c)
  {
  }

  /** "".join(parts). */
  function Concat(parts: seq<string>): string
  {
    if parts == [] then [] else parts[0] + Concat(parts[1..])
  }

  lemma {:induction false} ConcatAppend(a: seq<string>, b: seq<string>)
    ensures Concat(a + b) == Concat(a) + Concat(b)
  {
    if a == [] {
      assert a + b == b;
    } else {
      assert (a + b)[1..] == a[1..] + b;
      ConcatAppend(a[1..], b);
    }
  }

  function DigitChar(d: nat): (c: char)
    requires d < 10
    ensures IsDigit(c)
  {
    (48 + d) as char
  }

  function DigitValue(c: char): (d: nat)
    requires IsDigit(c)
    ensures d < 10 && DigitChar(d) == c
  {
    c as int - 48
  }

  /** str(n) for a non-negative integer. */
  function Dec(n: nat): (s: string)
    ensures |s| > 0 && AllDigits(s)
    decreases n
  {
    if n < 10 then [DigitChar(n)] else Dec(n / 10) + [DigitChar(n % 10)]
  }

  /** int(s) for a string of decimal digits (leading zeros allowed); it is only
      applied to such strings, and counts any other character as 0. */
  function DecValue(s: string): nat
  {
    if s == [] then 0
    else DecValue(s[..|s| - 1]) * 10 + (if IsDigit(s[|s| - 1]) then DigitValue(s[|s| - 1]) else 0)
  }

  /** int(str(n)) == n. */
  lemma {:induction false} DecRoundTrip(n: nat)
    ensures DecValue(Dec(n)) == n
  {
    if n >= 10 {
      var s := Dec(n);
      assert s[..|s| - 1] == Dec(n / 10);
      DecRoundTrip(n / 10);
    }
  }

  /** Normalises a Python slice bound against a length. */
  function SliceBound(k: int, n: nat): (r: nat)
    ensures r <= n
    ensures 0 <= k <= n ==> r == k
  {
    if k < 0 then (if k + n < 0 then 0 else k + n) else if k > n then n else k
  }

  /** s[i:j] with Python's rules: negative bounds count from the end,
      bounds are clipped to the string, an empty range gives "". */
  function PySlice(s: string, i: int, j: int): (r: string)
    ensures 0 <= i <= j <= |s| ==> r == s[i..j]
  {
    var a := SliceBound(i, |s|);
    var b := SliceBound(j, |s|);
    if a < b then s[a..b] else []
  }

  /** sep.join(parts) for a one-character separator. */
  function JoinWith(parts: seq<string>, sep: char): string
  {
    if parts == [] then []
    else if |parts| == 1 then parts[0]
    else parts[0] + [sep] + JoinWith(parts[1..], sep)
  }

  /** s.split(sep) for a one-character separator: always at least one piece. */
  function SplitOn(s: string, sep: char): (r: seq<string>)
    ensures |r| >= 1
  {
    if s == [] then [[]]
    else
      var rest := SplitOn(s[1..], sep);
      if s[0] == sep then [[]] + rest else [[s[0]] + rest[0]] + rest[1..]
  }

  lemma {:induction false} SplitOnFree(s: string, sep: char)
    requires sep !in s
    ensures SplitOn(s, sep) == [s]
  {
    if s != [] {
      SplitOnFree(s[1..], sep);
      assert [s[0]] + s[1..] == s;
    }
  }

  lemma {:induction false} SplitOnFirst(a: string, b: string, sep: char)
    requires sep !in a
    ensures SplitOn(a + [sep] + b, sep) == [a] + SplitOn(b, sep)
  {
    if a == [] {
      assert (a + [sep] + b)[1..] == b;
    } else {
      var s := a + [sep] + b;
      assert s[1..] == a[1..] + [sep] + b;
      SplitOnFirst(a[1..], b, sep);
      assert [s[0]] + a[1..] == a;
    }
  }

  /** Splitting a joined line gives back its fields when no field holds the separator. */
  lemma {:induction false} SplitJoin(parts: seq<string>, sep: char)
    requires parts != []
    requires forall k :: 0 <= k < |parts| ==> sep !in parts[k]
    ensures SplitOn(JoinWith(parts, sep), sep) == parts
  {
    if |parts| == 1 {
      SplitOnFree(parts[0], sep);
    } else {
      SplitJoin(parts[1..], sep);
      SplitOnFirst(parts[0], JoinWith(parts[1..], sep), sep);
    }
  }

  function Min(a: int, b: int): int { if a < b then a else b }
}
