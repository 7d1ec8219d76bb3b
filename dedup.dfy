/** df_domains.drop_duplicates(subset=["Entry", "Start", "End"]): the first row
    of every (Entry, Start, End) is kept, in table order. Empty coordinates
    compare equal to each other, so the sentinels of one entry share a key. */
module Dedup {
  import opened Wrappers
  import opened Extraction

  datatype Key = Key(entry: string, start: Option<nat>, end: Option<nat>)

  function KeyOf(r: DomainRow): Key
  {
    match r.coords
    case Some(c) => Key(r.entry, Some(c.start), Some(c.end))
    case None => Key(r.entry, None, None)
  }

  function KeysOf(rows: seq<DomainRow>): set<Key>
  {
    set r | r in rows :: KeyOf(r)
  }

  lemma KeysOfAppend(a: seq<DomainRow>, x: DomainRow)
    ensures KeysOf(a + [x]) == KeysOf(a) + {KeyOf(x)}
  {
    assert forall y :: y in a + [x] <==> y in a || y == x;
  }

  /** No two rows share a key. */
  predicate DistinctKeys(rows: seq<DomainRow>)
  {
    forall i, j :: 0 <= i < j < |rows| ==> KeyOf(rows[i]) != KeyOf(rows[j])
  }

  /** Row i is the first row with its key. */
  predicate FirstOfKey(rows: seq<DomainRow>, i: nat)
    requires i < |rows|
  {
    forall j :: 0 <= j < i ==> KeyOf(rows[j]) != KeyOf(rows[i])
  }

  /** The deduplicated table: its keys are distinct, it has every key of the input,
      and each of its rows is a row of the input. */
  function DropDuplicates(rows: seq<DomainRow>): (r: seq<DomainRow>)
    ensures DistinctKeys(r)
    ensures KeysOf(r) == KeysOf(rows)
    ensures forall x :: x in r ==> x in rows
    ensures |r| <= |rows|
  {
    if rows == [] then []
    else
      var front := rows[..|rows| - 1];
      var last := rows[|rows| - 1];
      var d := DropDuplicates(front);
      assert rows == front + [last];
      KeysOfAppend(front, last);
      if KeyOf(last) in KeysOf(d) then d
      else
        assert forall i :: 0 <= i < |d| ==> KeyOf(d[i]) in KeysOf(d);
        KeysOfAppend(d, last);
        d + [last]
  }

  /** idx picks rows of a, in increasing positions, that make up b. */
  predicate Selects(idx: seq<nat>, a: seq<DomainRow>, b: seq<DomainRow>)
  {
    && |idx| == |b|
    && (forall k :: 0 <= k < |idx| ==> idx[k] < |a| && b[k] == a[idx[k]])
    && (forall k, l :: 0 <= k < l < |idx| ==> idx[k] < idx[l])
  }

  /** Before the last row, being the first of its key does not depend on the last row. */
  lemma FirstOfKeyFront(rows: seq<DomainRow>, n: nat)
    requires n < |rows|
    ensures forall i :: 0 <= i < n ==> (FirstOfKey(rows, i) <==> FirstOfKey(rows[..n], i))
  {
  }

  /** The last row is the first of its key exactly when no earlier row has that key. */
  lemma FirstOfKeyLast(rows: seq<DomainRow>, n: nat)
    requires n + 1 == |rows|
    ensures FirstOfKey(rows, n) <==> KeyOf(rows[n]) !in KeysOf(rows[..n])
  {
    if KeyOf(rows[n]) in KeysOf(rows[..n]) {
      var x :| x in rows[..n] && KeyOf(x) == KeyOf(rows[n]);
      var j :| 0 <= j < n && rows[..n][j] == x;
      assert KeyOf(rows[j]) == KeyOf(rows[n]);
    } else {
      forall j | 0 <= j < n ensures KeyOf(rows[j]) != KeyOf(rows[n]) {
        assert rows[j] in rows[..n];
      }
    }
  }

  /** The last row is kept exactly when its key is new. */
  lemma DropDuplicatesStep(rows: seq<DomainRow>)
    requires rows != []
    ensures var n := |rows| - 1;
      DropDuplicates(rows) == if KeyOf(rows[n]) in KeysOf(rows[..n]) then DropDuplicates(rows[..n])
        else DropDuplicates(rows[..n]) + [rows[n]]
  {
  }

  /** A selection from the front of a table is one from the whole table, and stays
      one when the last row is appended at both ends. */
  lemma SelectsExtend(idx: seq<nat>, rows: seq<DomainRow>, d: seq<DomainRow>)
    requires rows != [] && Selects(idx, rows[..|rows| - 1], d)
    ensures Selects(idx, rows, d)
    ensures Selects(idx + [|rows| - 1], rows, d + [rows[|rows| - 1]])
  {
  }

  /** idx holds exactly the rows of the table that are the first of their key. */
  predicate KeepsFirsts(idx: seq<nat>, rows: seq<DomainRow>)
  {
    && (forall k :: 0 <= k < |idx| ==> idx[k] < |rows| && FirstOfKey(rows, idx[k]))
    && (forall i :: 0 <= i < |rows| && FirstOfKey(rows, i) ==> i in idx)
  }

  /** The first rows of the front stay first in the whole table; the last row joins
      them exactly when its key is new. */
  lemma KeepsFirstsExtend(idx: seq<nat>, rows: seq<DomainRow>)
    requires rows != [] && KeepsFirsts(idx, rows[..|rows| - 1])
    ensures KeyOf(rows[|rows| - 1]) in KeysOf(rows[..|rows| - 1]) ==> KeepsFirsts(idx, rows)
    ensures KeyOf(rows[|rows| - 1]) !in KeysOf(rows[..|rows| - 1]) ==> KeepsFirsts(idx + [|rows| - 1], rows)
  {
    var n := |rows| - 1;
    FirstOfKeyFront(rows, n);
    FirstOfKeyLast(rows, n);
  }

  /** The kept rows are the first rows of their keys, in table order, and every first
      row of a key is kept. */
  lemma {:induction false} DropDuplicatesFirst(rows: seq<DomainRow>) returns (idx: seq<nat>)
    ensures Selects(idx, rows, DropDuplicates(rows))
    ensures forall k :: 0 <= k < |idx| ==> idx[k] < |rows| && FirstOfKey(rows, idx[k])
    ensures forall i :: 0 <= i < |rows| && FirstOfKey(rows, i) ==> i in idx
  {
    if rows == [] {
      idx := [];
    } else {
      var n := |rows| - 1;
      var idx0 := DropDuplicatesFirst(rows[..n]);
      assert KeepsFirsts(idx0, rows[..n]);
      KeepsFirstsExtend(idx0, rows);
      DropDuplicatesStep(rows);
      SelectsExtend(idx0, rows, DropDuplicates(rows[..n]));
      if KeyOf(rows[n]) in KeysOf(rows[..n]) {
        idx := idx0;
      } else {
        idx := idx0 + [n];
      }
      assert KeepsFirsts(idx, rows);
    }
  }

  /** A table whose keys are already distinct is left as it is. */
  lemma {:induction false} DropDuplicatesDistinct(rows: seq<DomainRow>)
    requires DistinctKeys(rows)
    ensures DropDuplicates(rows) == rows
  {
    if rows != [] {
      var n := |rows| - 1;
      var front := rows[..n];
      assert DistinctKeys(front);
      DropDuplicatesDistinct(front);
      assert KeyOf(rows[n]) !in KeysOf(front);
      assert rows == front + [rows[n]];
    }
  }

  /** Deduplicating twice is the same as deduplicating once. */
  lemma DropDuplicatesIdempotent(rows: seq<DomainRow>)
    ensures DropDuplicates(DropDuplicates(rows)) == DropDuplicates(rows)
  {
    DropDuplicatesDistinct(DropDuplicates(rows));
  }

  /** The repeated sentinels of one entry collapse to a single row. */
  lemma SentinelsCollapse(rows: seq<DomainRow>, i: nat, j: nat)
    requires i < |DropDuplicates(rows)| && j < |DropDuplicates(rows)|
    requires DropDuplicates(rows)[i].coords.None? && DropDuplicates(rows)[j].coords.None?
    requires DropDuplicates(rows)[i].entry == DropDuplicates(rows)[j].entry
    ensures i == j
  {
  }
}
