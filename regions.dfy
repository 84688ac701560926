/**
 * Shared vocabulary of the CpG-island detector: the HMM's state and symbol
 * counts, the dinucleotide encoding, the two interval records (predicted or
 * annotated CpG regions, and lowercase-masked stretches of a chromosome) and
 * the sort by start position that several components apply to region lists.
 */
module Regions {

  /** Number of hidden states: 0 = background, 1 = CpG island. */
  const NSTATE: int := 2
  /** Number of emission symbols: the sixteen dinucleotides AA..TT. */
  const NSYM: int := 16

  datatype Option<T> = None | Some(value: T)

  /** A closed interval [start, end] of 1-based positions on a chromosome. */
  datatype CpgRegion = CpgRegion(start: int, end: int, chromosome: int)

  /** A closed interval [start, end] of 1-based positions that were lowercase. */
  datatype LowerCaseRegion = LowerCaseRegion(start: int, end: int)

  /** The four bases in code order: A = 0, C = 1, G = 2, T = 3. */
  const Bases: string := "ACGT"

  predicate IsBase(c: char) {
    c == 'A' || c == 'C' || c == 'G' || c == 'T'
  }

  /** Code of a base, or -1 for anything else (lowercase bases included). */
  function BaseCode(c: char): (x: int)
    ensures -1 <= x < 4
    ensures x == -1 <==> !IsBase(c)
    ensures x != -1 ==> Bases[x] == c
  {
    if c == 'A' then 0 else if c == 'C' then 1 else if c == 'G' then 2 else if c == 'T' then 3 else -1
  }

  /**
   * Index 0..15 of the dinucleotide (a, b), computed as the source does with
   * a shift and a bitwise or; -1 when either character is not exactly one of
   * A, C, G, T.
   */
  function DiIndex(a: char, b: char): (r: int)
    ensures -1 <= r < NSYM
    ensures r == -1 <==> !IsBase(a) || !IsBase(b)
  {
    var x := BaseCode(a);
    var y := BaseCode(b);
    if x < 0 || y < 0 then -1 else ((x as bv8 << 2) | y as bv8) as int
  }

  /** For a valid pair the shift-and-or is the arithmetic 4*x+y. */
  lemma DiIndexIsArithmetic(a: char, b: char)
    requires IsBase(a) && IsBase(b)
    ensures DiIndex(a, b) == 4 * BaseCode(a) + BaseCode(b)
  {
    var x := BaseCode(a);
    var y := BaseCode(b);
    assert 0 <= x < 4 && 0 <= y < 4;
    if x == 0 {
      if y == 0 {} else if y == 1 {} else if y == 2 {} else {}
    } else if x == 1 {
      if y == 0 {} else if y == 1 {} else if y == 2 {} else {}
    } else if x == 2 {
      if y == 0 {} else if y == 1 {} else if y == 2 {} else {}
    } else {
      if y == 0 {} else if y == 1 {} else if y == 2 {} else {}
    }
  }

  /** Decoding an index gives back the pair: the encoding is invertible. */
  lemma DiIndexDecodes(a: char, b: char)
    requires DiIndex(a, b) != -1
    ensures Bases[DiIndex(a, b) / 4] == a && Bases[DiIndex(a, b) % 4] == b
  {
    DiIndexIsArithmetic(a, b);
  }

  /** Distinct ACGT pairs have distinct indices. */
  lemma DiIndexInjective(a: char, b: char, c: char, d: char)
    requires DiIndex(a, b) != -1 && DiIndex(a, b) == DiIndex(c, d)
    ensures a == c && b == d
  {
    DiIndexDecodes(a, b);
    DiIndexDecodes(c, d);
  }

  /** The CpG dinucleotide has index 6. */
  lemma CpGIndex()
    ensures DiIndex('C', 'G') == 6
  {
    DiIndexIsArithmetic('C', 'G');
  }

  /** Sorted by start position (ties in any order). */
  predicate SortedByStart(s: seq<CpgRegion>) {
    forall i, j :: 0 <= i < j < |s| ==> s[i].start <= s[j].start
  }

  function InsertByStart(x: CpgRegion, s: seq<CpgRegion>): (r: seq<CpgRegion>)
    requires SortedByStart(s)
    ensures SortedByStart(r)
    ensures multiset(r) == multiset(s) + multiset{x}
    ensures |r| == |s| + 1
  {
    if s == [] || x.start <= s[0].start then
      [x] + s
    else
      var t := InsertByStart(x, s[1..]);
      assert s == [s[0]] + s[1..];
      ConsSorted(s[0], s[1..], x, t);
      [s[0]] + t
  }

  /** A head no later than every element of rest and than x stays first after x is inserted into rest. */
  lemma ConsSorted(h: CpgRegion, rest: seq<CpgRegion>, x: CpgRegion, t: seq<CpgRegion>)
    requires SortedByStart([h] + rest) && h.start <= x.start
    requires SortedByStart(t) && multiset(t) == multiset(rest) + multiset{x}
    ensures SortedByStart([h] + t)
  {
    forall k | 0 <= k < |t|
      ensures h.start <= t[k].start
    {
      assert t[k] in multiset(t);
      if t[k] != x {
        assert t[k] in multiset(rest);
        assert t[k] in rest;
        var j :| 0 <= j < |rest| && rest[j] == t[k];
        var hr := [h] + rest;
        assert hr[0] == h && hr[j + 1] == rest[j];
        assert hr[0].start <= hr[j + 1].start;
      }
    }
    var r := [h] + t;
    forall i, j | 0 <= i < j < |r|
      ensures r[i].start <= r[j].start
    {
      if i > 0 {
        assert r[i] == t[i - 1] && r[j] == t[j - 1];
      } else {
        assert r[j] == t[j - 1];
      }
    }
  }

  /**
   * The sort by start that the source delegates to the standard library: the
   * result is ordered by start and is a permutation of the input.
   */
  function SortByStart(s: seq<CpgRegion>): (r: seq<CpgRegion>)
    ensures SortedByStart(r)
    ensures multiset(r) == multiset(s)
    ensures |r| == |s|
  {
    if s == [] then []
    else
      assert s == [s[0]] + s[1..];
      InsertByStart(s[0], SortByStart(s[1..]))
  }

  /** A list that is already sorted by start is left as it is. */
  lemma {:induction false} SortSortedIsIdentity(s: seq<CpgRegion>)
    requires SortedByStart(s)
    ensures SortByStart(s) == s
  {
    if s != [] {
      SortSortedIsIdentity(s[1..]);
      assert s == [s[0]] + s[1..];
    }
  }

  /** Sorting keeps exactly the elements of the list. */
  lemma SortKeepsElements(s: seq<CpgRegion>, x: CpgRegion)
    ensures x in SortByStart(s) <==> x in s
  {
    assert x in SortByStart(s) <==> x in multiset(SortByStart(s));
    assert x in s <==> x in multiset(s);
  }

  function Max(a: int, b: int): int { if a >= b then a else b }
  function Min(a: int, b: int): int { if a <= b then a else b }

  /** Some region of the list contains position x. */
  predicate Covers(s: seq<CpgRegion>, x: int) {
    exists k :: 0 <= k < |s| && s[k].start <= x <= s[k].end
  }

  lemma CoversAppend(s: seq<CpgRegion>, y: CpgRegion, x: int)
    ensures Covers(s + [y], x) <==> Covers(s, x) || y.start <= x <= y.end
  {
    if Covers(s + [y], x) {
      var k :| 0 <= k < |s + [y]| && (s + [y])[k].start <= x <= (s + [y])[k].end;
      if k < |s| { assert s[k] == (s + [y])[k]; }
    }
    if Covers(s, x) {
      var k :| 0 <= k < |s| && s[k].start <= x <= s[k].end;
      assert (s + [y])[k] == s[k];
    }
    if y.start <= x <= y.end {
      assert (s + [y])[|s|] == y;
    }
  }

  /** Number of positions of a closed interval (negative when end < start - 1). */
  function Length(r: CpgRegion): int {
    r.end - r.start + 1
  }
}
