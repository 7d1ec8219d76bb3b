/** Step 5 of domains.py: the domain table split by Domain_Len. A sentinel row
    has no Domain_Len, and a missing value fails both comparisons, so it lands in
    neither part. */
module Partition {
  import opened Wrappers
  import opened Extraction

  predicate IsShort(r: DomainRow) { r.coords.Some? && r.coords.value.domainLen < 100 }

  predicate IsLong(r: DomainRow) { r.coords.Some? && r.coords.value.domainLen >= 100 }

  /** df_domains[df_domains['Domain_Len'] < 100]: the short rows, in table order. */
  function ShortDomains(rows: seq<DomainRow>): (r: seq<DomainRow>)
    ensures forall x :: x in r ==> x in rows && IsShort(x)
    ensures forall x :: multiset(r)[x] == if IsShort(x) then multiset(rows)[x] else 0
    ensures |r| <= |rows|
  {
    if rows == [] then []
    else
      var last := rows[|rows| - 1];
      assert rows == rows[..|rows| - 1] + [last];
      var front := ShortDomains(rows[..|rows| - 1]);
      if IsShort(last) then front + [last] else front
  }

  /** df_domains[df_domains['Domain_Len'] >= 100]: the long rows, in table order. */
  function LongDomains(rows: seq<DomainRow>): (r: seq<DomainRow>)
    ensures forall x :: x in r ==> x in rows && IsLong(x)
    ensures forall x :: multiset(r)[x] == if IsLong(x) then multiset(rows)[x] else 0
    ensures |r| <= |rows|
  {
    if rows == [] then []
    else
      var last := rows[|rows| - 1];
      assert rows == rows[..|rows| - 1] + [last];
      var front := LongDomains(rows[..|rows| - 1]);
      if IsLong(last) then front + [last] else front
  }

  /** dropna(subset=['Start']): the rows that have coordinates, each as often as in
      the table, and no sentinel. */
  function WithCoords(rows: seq<DomainRow>): (r: seq<DomainRow>)
    ensures forall x :: x in r ==> x in rows && x.coords.Some?
    ensures forall x :: multiset(r)[x] == if x.coords.Some? then multiset(rows)[x] else 0
  {
    if rows == [] then []
    else
      var last := rows[|rows| - 1];
      assert rows == rows[..|rows| - 1] + [last];
      var front := WithCoords(rows[..|rows| - 1]);
      if last.coords.Some? then front + [last] else front
  }

  /** Every row with coordinates goes to exactly one part: the two parts together
      hold the rows with coordinates, each as often as it occurs there. */
  lemma {:induction false} PartitionCovers(rows: seq<DomainRow>)
    ensures multiset(ShortDomains(rows)) + multiset(LongDomains(rows)) == multiset(WithCoords(rows))
  {
    if rows != [] {
      PartitionCovers(rows[..|rows| - 1]);
    }
  }

  /** No row is both short and long, and no sentinel is in either part. */
  lemma PartitionDisjoint(rows: seq<DomainRow>)
    ensures multiset(ShortDomains(rows)) * multiset(LongDomains(rows)) == multiset{}
    ensures forall x :: x in ShortDomains(rows) || x in LongDomains(rows) ==> x.coords.Some?
  {
  }

  /** A domain of exactly 100 residues is long. */
  lemma HundredIsLong(r: DomainRow)
    requires r.coords.Some? && r.coords.value.domainLen == 100
    ensures ShortDomains([r]) == [] && LongDomains([r]) == [r]
  {
    assert [r][..0] == [];
  }
}
