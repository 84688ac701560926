/**
 * Evaluation of predicted CpG islands against annotated ones: island-level
 * true/false positives and false negatives by a two-pointer match over the
 * lists sorted by start, and base-pair level counts from the summed lengths
 * and the summed intersections met by a two-pointer walk.
 */
module Evaluation {
  import opened Regions

  /** The two regions share at least one position. */
  predicate Overlaps(a: CpgRegion, b: CpgRegion) {
    !(a.end < b.start) && !(b.end < a.start)
  }

  /** A match of predicted[pred] with truth[truth]. */
  datatype Match = Match(pred: int, truth: int)

  // ---------------------------------------------------------------------------
  // island_based_evaluation

  /**
   * The matches the two-pointer walk makes from predicted[i] and truth[j] on:
   * a predicted island ending before the truth island starts is skipped, a
   * truth island ending before the predicted one starts is skipped, and
   * otherwise the two are matched and both are passed.
   */
  function MatchesFrom(p: seq<CpgRegion>, t: seq<CpgRegion>, i: int, j: int): seq<Match>
    requires 0 <= i <= |p| && 0 <= j <= |t|
    decreases |p| - i + |t| - j
  {
    if i == |p| || j == |t| then []
    else if p[i].end < t[j].start then MatchesFrom(p, t, i + 1, j)
    else if t[j].end < p[i].start then MatchesFrom(p, t, i, j + 1)
    else [Match(i, j)] + MatchesFrom(p, t, i + 1, j + 1)
  }

  /** Every match pairs overlapping islands at indices from i and j on. */
  predicate ValidMatches(p: seq<CpgRegion>, t: seq<CpgRegion>, i: int, j: int, ms: seq<Match>) {
    forall k :: 0 <= k < |ms| ==>
      0 <= ms[k].pred && 0 <= ms[k].truth &&
      i <= ms[k].pred < |p| && j <= ms[k].truth < |t| && Overlaps(p[ms[k].pred], t[ms[k].truth])
  }

  /** Indices strictly increase on both sides, so no island is matched twice. */
  predicate Increasing(ms: seq<Match>) {
    forall k, l :: 0 <= k < l < |ms| ==> ms[k].pred < ms[l].pred && ms[k].truth < ms[l].truth
  }

  lemma PrependMatch(p: seq<CpgRegion>, t: seq<CpgRegion>, i: int, j: int, rest: seq<Match>)
    requires 0 <= i < |p| && 0 <= j < |t| && Overlaps(p[i], t[j])
    requires ValidMatches(p, t, i + 1, j + 1, rest) && Increasing(rest)
    ensures ValidMatches(p, t, i, j, [Match(i, j)] + rest) && Increasing([Match(i, j)] + rest)
  {
    var ms := [Match(i, j)] + rest;
    forall k, l | 0 <= k < l < |ms|
      ensures ms[k].pred < ms[l].pred && ms[k].truth < ms[l].truth
    {
      assert ms[l] == rest[l - 1];
      if k > 0 {
        assert ms[k] == rest[k - 1];
      }
    }
    forall k | 0 <= k < |ms|
      ensures 0 <= ms[k].pred && 0 <= ms[k].truth &&
        i <= ms[k].pred < |p| && j <= ms[k].truth < |t| && Overlaps(p[ms[k].pred], t[ms[k].truth])
    {
      if k > 0 {
        assert ms[k] == rest[k - 1];
      }
    }
  }

  /**
   * Every match pairs overlapping islands at indices from i and j on, and the
   * indices strictly increase on both sides, so no island takes part in two
   * matches.
   */
  lemma {:induction false} MatchesSpec(p: seq<CpgRegion>, t: seq<CpgRegion>, i: int, j: int)
    requires 0 <= i <= |p| && 0 <= j <= |t|
    ensures ValidMatches(p, t, i, j, MatchesFrom(p, t, i, j))
    ensures Increasing(MatchesFrom(p, t, i, j))
    decreases |p| - i + |t| - j
  {
    if i < |p| && j < |t| {
      if p[i].end < t[j].start {
        MatchesSpec(p, t, i + 1, j);
      } else if t[j].end < p[i].start {
        MatchesSpec(p, t, i, j + 1);
      } else {
        MatchesSpec(p, t, i + 1, j + 1);
        PrependMatch(p, t, i, j, MatchesFrom(p, t, i + 1, j + 1));
      }
    }
  }

  /** There are at most as many matches as islands on either side. */
  lemma {:induction false} MatchesBound(p: seq<CpgRegion>, t: seq<CpgRegion>, i: int, j: int)
    requires 0 <= i <= |p| && 0 <= j <= |t|
    ensures |MatchesFrom(p, t, i, j)| <= |p| - i && |MatchesFrom(p, t, i, j)| <= |t| - j
    decreases |p| - i + |t| - j
  {
    if i < |p| && j < |t| {
      if p[i].end < t[j].start {
        MatchesBound(p, t, i + 1, j);
      } else if t[j].end < p[i].start {
        MatchesBound(p, t, i, j + 1);
      } else {
        MatchesBound(p, t, i + 1, j + 1);
      }
    }
  }

  /** The two-pointer loop over two lists: TP is the number of matches of the walk. */
  method CountMatches(predicted: seq<CpgRegion>, truth: seq<CpgRegion>) returns (tp: int)
    ensures tp == |MatchesFrom(predicted, truth, 0, 0)|
  {
    tp := 0;
    var i, j := 0, 0;
    ghost var done: seq<Match> := [];
    while i < |predicted| && j < |truth|
      invariant 0 <= i <= |predicted| && 0 <= j <= |truth|
      invariant done + MatchesFrom(predicted, truth, i, j) == MatchesFrom(predicted, truth, 0, 0)
      invariant tp == |done|
      decreases |predicted| - i + |truth| - j
    {
      var p := predicted[i];
      var t := truth[j];
      if p.end < t.start {
        i := i + 1;
        continue;
      }
      if t.end < p.start {
        j := j + 1;
        continue;
      }
      assert done + MatchesFrom(predicted, truth, i, j) == (done + [Match(i, j)]) + MatchesFrom(predicted, truth, i + 1, j + 1);
      done := done + [Match(i, j)];
      tp := tp + 1;
      i := i + 1;
      j := j + 1;
    }
    assert done + [] == done;
  }

  /**
   * Island-level counts over copies of the two lists sorted by start (the
   * caller's lists are values and stay as they are): TP is the number of
   * matches of the two-pointer walk, FP and FN the unmatched remainders, both
   * non-negative.
   */
  method IslandBasedEvaluation(predictedIn: seq<CpgRegion>, truthIn: seq<CpgRegion>)
    returns (tp: int, fp: int, fn: int)
    ensures tp == |MatchesFrom(SortByStart(predictedIn), SortByStart(truthIn), 0, 0)|
    ensures fp == |predictedIn| - tp && fn == |truthIn| - tp
    ensures 0 <= tp <= |predictedIn| && tp <= |truthIn| && fp >= 0 && fn >= 0
  {
    var predicted := SortByStart(predictedIn);
    var truth := SortByStart(truthIn);
    tp := CountMatches(predicted, truth);
    MatchesBound(predicted, truth, 0, 0);
    fp := |predicted| - tp;
    fn := |truth| - tp;
  }

  /**
   * The count depends on the order of equal starts, which an unstable sort
   * leaves open: two start-sorted orders of the same predictions, against the
   * same annotation, give two matches and one.
   */
  lemma TieOrderChangesMatches()
    ensures var a := CpgRegion(1, 10, 0);
            var b := CpgRegion(1, 100, 0);
            var t := [CpgRegion(5, 6, 0), CpgRegion(50, 60, 0)];
            SortedByStart([a, b]) && SortedByStart([b, a]) && multiset([a, b]) == multiset([b, a]) &&
            |MatchesFrom([a, b], t, 0, 0)| == 2 && |MatchesFrom([b, a], t, 0, 0)| == 1
  {
    var a := CpgRegion(1, 10, 0);
    var b := CpgRegion(1, 100, 0);
    var t := [CpgRegion(5, 6, 0), CpgRegion(50, 60, 0)];
    assert MatchesFrom([a, b], t, 1, 1) == [Match(1, 1)] + MatchesFrom([a, b], t, 2, 2);
    assert MatchesFrom([b, a], t, 1, 1) == MatchesFrom([b, a], t, 2, 1);
  }

  // ---------------------------------------------------------------------------
  // base_pair_evaluation

  /** Sum of the lengths end-start+1 of the regions. */
  function SumLengths(s: seq<CpgRegion>): int {
    if s == [] then 0 else Length(s[0]) + SumLengths(s[1..])
  }

  /** Length of the intersection of a and b, 0 when it is empty. */
  function Intersection(a: CpgRegion, b: CpgRegion): int {
    var s := Max(a.start, b.start);
    var e := Min(a.end, b.end);
    if s <= e then e - s + 1 else 0
  }

  /**
   * Overlap summed by the two-pointer walk from predicted[i] and truth[j]:
   * add the intersection of the current pair, then pass the region that ends
   * first (the truth region on a tie).
   */
  function OverlapFrom(p: seq<CpgRegion>, t: seq<CpgRegion>, i: int, j: int): int
    requires 0 <= i <= |p| && 0 <= j <= |t|
    decreases |p| - i + |t| - j
  {
    if i == |p| || j == |t| then 0
    else
      var rest := if p[i].end < t[j].end then OverlapFrom(p, t, i + 1, j) else OverlapFrom(p, t, i, j + 1);
      Intersection(p[i], t[j]) + rest
  }

  /** Base-pair counts: TP the walked overlap, FP and FN the lengths not covered by it. */
  method BasePairEvaluation(predicted: seq<CpgRegion>, truth: seq<CpgRegion>)
    returns (tp: int, fp: int, fn: int)
    ensures tp == OverlapFrom(predicted, truth, 0, 0)
    ensures fp == SumLengths(predicted) - tp
    ensures fn == SumLengths(truth) - tp
  {
    var predLen := 0;
    var truthLen := 0;
    for k := 0 to |predicted|
      invariant predLen + SumLengths(predicted[k..]) == SumLengths(predicted)
    {
      assert predicted[k..][1..] == predicted[k + 1..];
      predLen := predLen + (predicted[k].end - predicted[k].start + 1);
    }
    for k := 0 to |truth|
      invariant truthLen + SumLengths(truth[k..]) == SumLengths(truth)
    {
      assert truth[k..][1..] == truth[k + 1..];
      truthLen := truthLen + (truth[k].end - truth[k].start + 1);
    }
    var overlapLen := 0;
    var i, j := 0, 0;
    while i < |predicted| && j < |truth|
      invariant 0 <= i <= |predicted| && 0 <= j <= |truth|
      invariant overlapLen + OverlapFrom(predicted, truth, i, j) == OverlapFrom(predicted, truth, 0, 0)
      decreases |predicted| - i + |truth| - j
    {
      var s := Max(predicted[i].start, truth[j].start);
      var e := Min(predicted[i].end, truth[j].end);
      if s <= e {
        overlapLen := overlapLen + (e - s + 1);
      }
      if predicted[i].end < truth[j].end {
        i := i + 1;
      } else {
        j := j + 1;
      }
    }
    tp := overlapLen;
    fp := predLen - overlapLen;
    fn := truthLen - overlapLen;
  }

  /** Positions of r at or after x. */
  function LengthFrom(r: CpgRegion, x: int): int {
    var s := Max(r.start, x);
    if s <= r.end then r.end - s + 1 else 0
  }

  predicate NonEmpty(s: seq<CpgRegion>) {
    forall k :: 0 <= k < |s| ==> s[k].start <= s[k].end
  }

  /** Each region ends before the next one starts. */
  predicate Disjoint(s: seq<CpgRegion>) {
    forall k :: 0 <= k < |s| - 1 ==> s[k].end < s[k + 1].start
  }

  /**
   * When all regions are non-empty and the truth regions are ordered and
   * disjoint, the walked overlap from (i, j) is at most the part of
   * predicted[i] at or after truth[j]'s start plus the lengths of the later
   * predicted regions.
   */
  lemma {:induction false} OverlapWithinPredicted(p: seq<CpgRegion>, t: seq<CpgRegion>, i: int, j: int)
    requires NonEmpty(p) && NonEmpty(t) && Disjoint(t)
    requires 0 <= i < |p| && 0 <= j < |t|
    ensures OverlapFrom(p, t, i, j) <= LengthFrom(p[i], t[j].start) + SumLengths(p[i + 1..])
    decreases |p| - i + |t| - j
  {
    SumLengthsNonNegative(p[i + 1..]);
    if p[i].end < t[j].end {
      if i + 1 < |p| {
        OverlapWithinPredicted(p, t, i + 1, j);
        assert p[i + 1..] == [p[i + 1]] + p[i + 2..];
      }
    } else if j + 1 < |t| {
      assert t[j].end < t[j + 1].start;
      OverlapWithinPredicted(p, t, i, j + 1);
    }
  }

  /**
   * Symmetrically, when the predicted regions are ordered and disjoint, the
   * walked overlap is at most the part of truth[j] at or after predicted[i]'s
   * start plus the lengths of the later truth regions.
   */
  lemma {:induction false} OverlapWithinTruth(p: seq<CpgRegion>, t: seq<CpgRegion>, i: int, j: int)
    requires NonEmpty(p) && NonEmpty(t) && Disjoint(p)
    requires 0 <= i < |p| && 0 <= j < |t|
    ensures OverlapFrom(p, t, i, j) <= LengthFrom(t[j], p[i].start) + SumLengths(t[j + 1..])
    decreases |p| - i + |t| - j
  {
    SumLengthsNonNegative(t[j + 1..]);
    if p[i].end < t[j].end {
      if i + 1 < |p| {
        assert p[i].end < p[i + 1].start;
        OverlapWithinTruth(p, t, i + 1, j);
      }
    } else if j + 1 < |t| {
      OverlapWithinTruth(p, t, i, j + 1);
      assert t[j + 1..] == [t[j + 1]] + t[j + 2..];
    }
  }

  lemma {:induction false} SumLengthsNonNegative(s: seq<CpgRegion>)
    requires NonEmpty(s)
    ensures SumLengths(s) >= 0
  {
    if s != [] {
      assert NonEmpty(s[1..]);
      SumLengthsNonNegative(s[1..]);
    }
  }

  /**
   * With non-empty regions, each list ordered and disjoint, the base-pair
   * counts are all non-negative: the walked overlap never exceeds either
   * list's total length.
   */
  lemma BasePairCountsNonNegative(p: seq<CpgRegion>, t: seq<CpgRegion>)
    requires NonEmpty(p) && NonEmpty(t) && Disjoint(p) && Disjoint(t)
    ensures 0 <= OverlapFrom(p, t, 0, 0) <= SumLengths(p)
    ensures OverlapFrom(p, t, 0, 0) <= SumLengths(t)
  {
    OverlapNonNegative(p, t, 0, 0);
    if p != [] && t != [] {
      OverlapWithinPredicted(p, t, 0, 0);
      OverlapWithinTruth(p, t, 0, 0);
      assert SumLengths(p) == Length(p[0]) + SumLengths(p[1..]);
      assert SumLengths(t) == Length(t[0]) + SumLengths(t[1..]);
      assert LengthFrom(p[0], t[0].start) <= Length(p[0]);
      assert LengthFrom(t[0], p[0].start) <= Length(t[0]);
    }
  }

  lemma {:induction false} OverlapNonNegative(p: seq<CpgRegion>, t: seq<CpgRegion>, i: int, j: int)
    requires 0 <= i <= |p| && 0 <= j <= |t|
    ensures OverlapFrom(p, t, i, j) >= 0
    decreases |p| - i + |t| - j
  {
    if i < |p| && j < |t| {
      if p[i].end < t[j].end {
        OverlapNonNegative(p, t, i + 1, j);
      } else {
        OverlapNonNegative(p, t, i, j + 1);
      }
    }
  }
}
