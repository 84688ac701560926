/**
 * Decoding of one window: the hysteresis state machine that turns the
 * per-position CpG posterior into a 0/1 state sequence, and the window
 * pipeline that extracts islands from the states, moves them to global
 * coordinates, clips them to the window's keep range and passes them through
 * the post-processing filters.
 *
 * The posterior itself comes from the forward-backward pass, which is not
 * modelled: it is an input here, and only compared against thresholds.
 */
module Decode {
  import opened Regions
  import opened Postprocessing

  // ---------------------------------------------------------------------------
  // decode_hysteresis

  /** One step of the machine: OUT enters at `enter`, IN leaves below `exit`. */
  function Step(inCpg: bool, p: real, enter: real, exit: real): bool {
    if !inCpg && p >= enter then true
    else if inCpg && p < exit then false
    else inCpg
  }

  /** Whether the machine is IN after reading p[0..t]; it starts OUT. */
  function InAt(p: seq<real>, enter: real, exit: real, t: int): bool
    requires 0 <= t < |p|
  {
    Step(if t == 0 then false else InAt(p, enter, exit, t - 1), p[t], enter, exit)
  }

  function Bit(b: bool): int { if b then 1 else 0 }

  /** The state sequence the decoder is specified to produce. */
  function Decoded(p: seq<real>, enter: real, exit: real): (r: seq<int>)
    ensures |r| == |p|
  {
    seq(|p|, t requires 0 <= t < |p| => Bit(InAt(p, enter, exit, t)))
  }

  /** Every decoded state is 0 or 1, and the machine starts OUT. */
  lemma DecodedStartsOut(p: seq<real>, enter: real, exit: real)
    ensures var st := Decoded(p, enter, exit);
      (forall t :: 0 <= t < |st| ==> st[t] == 0 || st[t] == 1) &&
      (|st| > 0 ==> (st[0] == 1 <==> p[0] >= enter))
  {
  }

  /**
   * The machine switches 0 to 1 only on a value at or above `enter` and 1 to
   * 0 only on a value below `exit`; it holds 1 while values stay at or above
   * `exit` and holds 0 while they stay below `enter`.
   */
  lemma DecodedTransitions(p: seq<real>, enter: real, exit: real)
    ensures var st := Decoded(p, enter, exit);
      (forall t :: 0 < t < |st| && st[t - 1] == 0 && st[t] == 1 ==> p[t] >= enter) &&
      (forall t :: 0 < t < |st| && st[t - 1] == 1 && st[t] == 0 ==> p[t] < exit) &&
      (forall t :: 0 < t < |st| && st[t - 1] == 1 && p[t] >= exit ==> st[t] == 1) &&
      (forall t :: 0 < t < |st| && st[t - 1] == 0 && p[t] < enter ==> st[t] == 0)
  {
    var st := Decoded(p, enter, exit);
    forall u | 0 <= u && u + 1 < |st|
      ensures st[u + 1] == Bit(Step(InAt(p, enter, exit, u), p[u + 1], enter, exit))
      ensures st[u] == Bit(InAt(p, enter, exit, u))
    {
    }
  }

  /** With equal thresholds the decoder is a plain threshold test. */
  lemma DecodedPlainThreshold(p: seq<real>, th: real)
    ensures forall t :: 0 <= t < |p| ==> (Decoded(p, th, th)[t] == 1 <==> p[t] >= th)
  {
    forall t | 0 <= t < |p|
      ensures InAt(p, th, th, t) <==> p[t] >= th
    {
    }
  }

  /** The hysteresis decoder: fills the states in one pass, exactly as specified by Decoded. */
  method DecodeHysteresis(posterior: seq<real>, enterTh: real, exitTh: real) returns (states: seq<int>)
    ensures states == Decoded(posterior, enterTh, exitTh)
  {
    var n := |posterior|;
    states := seq(n, _ => 0);
    var inCpg := false;
    for t := 0 to n
      invariant |states| == n
      invariant forall s :: 0 <= s < t ==> states[s] == Bit(InAt(posterior, enterTh, exitTh, s))
      invariant inCpg == (t > 0 && InAt(posterior, enterTh, exitTh, t - 1))
    {
      if !inCpg && posterior[t] >= enterTh {
        inCpg := true;
      } else if inCpg && posterior[t] < exitTh {
        inCpg := false;
      }
      assert inCpg == InAt(posterior, enterTh, exitTh, t);
      states := states[t := if inCpg then 1 else 0];
    }
  }

  /** The machine entered at some s <= t and every later value up to t stayed at or above `exit`. */
  predicate EnteredAndHeld(p: seq<real>, enter: real, exit: real, t: int)
    requires 0 <= t < |p|
  {
    exists s :: 0 <= s <= t && p[s] >= enter && forall u :: s < u <= t ==> p[u] >= exit
  }

  /**
   * When the entry threshold is at least the exit threshold, the machine is
   * IN at t exactly when some value at or before t reached `enter` and no
   * value after it fell below `exit`.
   */
  lemma {:induction false} HysteresisLatch(p: seq<real>, enter: real, exit: real, t: int)
    requires enter >= exit && 0 <= t < |p|
    ensures InAt(p, enter, exit, t) <==> EnteredAndHeld(p, enter, exit, t)
  {
    if t == 0 {
      if InAt(p, enter, exit, 0) {
        assert p[0] >= enter;
      }
    } else {
      HysteresisLatch(p, enter, exit, t - 1);
      if InAt(p, enter, exit, t) {
        if InAt(p, enter, exit, t - 1) {
          var s :| 0 <= s <= t - 1 && p[s] >= enter && forall u :: s < u <= t - 1 ==> p[u] >= exit;
          assert p[t] >= exit;
          assert forall u :: s < u <= t ==> p[u] >= exit;
        } else {
          assert p[t] >= enter;
        }
      }
      if EnteredAndHeld(p, enter, exit, t) {
        var s :| 0 <= s <= t && p[s] >= enter && forall u :: s < u <= t ==> p[u] >= exit;
        if s < t {
          assert EnteredAndHeld(p, enter, exit, t - 1);
          assert p[t] >= exit;
        } else {
          assert p[t] >= enter && p[t] >= exit;
        }
      }
    }
  }

  // ---------------------------------------------------------------------------
  // process_window

  /** Integer halving that truncates toward zero, as C++ `/` does. */
  function Half(x: int): int {
    if x >= 0 then x / 2 else -((-x) / 2)
  }

  /** Left end (0-based) of the part of a window whose islands are kept. */
  function KeepLeft(startD: int, overlap: int): int {
    if startD == 0 then startD else startD + Half(overlap)
  }

  /** Right end (0-based) of the part of a window whose islands are kept. */
  function KeepRight(endD: int, T: int, overlap: int): int {
    if endD == T then endD else endD - Half(overlap)
  }

  /** Regions that are long and more than MERGE_DISTANCE apart are in start order. */
  lemma SeparatedLongSorted(s: seq<CpgRegion>)
    requires Separated(s) && AllLong(s)
    ensures SortedByStart(s)
  {
    forall i, j | 0 <= i < j < |s|
      ensures s[i].start <= s[j].start
    {
      assert Length(s[i]) >= MIN_CPG_LEN;
      assert s[j].start - s[i].end > MERGE_DISTANCE;
    }
  }

  /** Every region lies within [lo, hi]. */
  predicate AllWithin(s: seq<CpgRegion>, lo: int, hi: int) {
    forall k :: 0 <= k < |s| ==> lo <= s[k].start && s[k].end <= hi
  }

  /** Every region moved by d, keeping its chromosome. */
  function ShiftAll(s: seq<CpgRegion>, d: int): seq<CpgRegion> {
    seq(|s|, m requires 0 <= m < |s| => s[m].(start := s[m].start + d, end := s[m].end + d))
  }

  /** Moves the islands of a window by its start, in place: the same list, each region shifted. */
  method ShiftIslands(islands: seq<CpgRegion>, baseShift: int) returns (shifted: seq<CpgRegion>)
    ensures shifted == ShiftAll(islands, baseShift)
    ensures |shifted| == |islands|
    ensures forall m :: 0 <= m < |shifted| ==>
      shifted[m] == islands[m].(start := islands[m].start + baseShift, end := islands[m].end + baseShift)
  {
    shifted := islands;
    for k := 0 to |shifted|
      invariant |shifted| == |islands|
      invariant forall m :: 0 <= m < k ==>
        shifted[m] == islands[m].(start := islands[m].start + baseShift, end := islands[m].end + baseShift)
      invariant forall m :: k <= m < |shifted| ==> shifted[m] == islands[m]
    {
      shifted := shifted[k := shifted[k].(start := shifted[k].start + baseShift, end := shifted[k].end + baseShift)];
    }
  }

  /**
   * The filter chain of a window: clip to [lo, hi], trim with the posterior,
   * merge and filter by length, filter by content.
   */
  function FilterChain(sequence: string, islands: seq<CpgRegion>, posterior: seq<real>, baseShift: int,
                       postTrim: real, lo: int, hi: int): seq<CpgRegion>
  {
    ContentFilter(sequence, MergeAndFilter(TrimAll(ClipAll(islands, lo, hi), posterior, baseShift, postTrim)))
  }

  /**
   * Whatever the input, every result of the filter chain lies in [lo, hi],
   * is long, passes the content test, and the list is sorted and separated.
   */
  lemma FilterChainSpec(sequence: string, islands: seq<CpgRegion>, posterior: seq<real>, baseShift: int,
                        postTrim: real, lo: int, hi: int)
    ensures var out := FilterChain(sequence, islands, posterior, baseShift, postTrim, lo, hi);
      AllWithin(out, lo, hi) && SortedByStart(out) && AllLong(out) && Separated(out) &&
      forall k :: 0 <= k < |out| ==> PassesContent(sequence, out[k])
  {
    var clipped := ClipAll(islands, lo, hi);
    ClipAllInside(islands, lo, hi);
    assert AllWithin(clipped, lo, hi);

    var trimmed := TrimAll(clipped, posterior, baseShift, postTrim);
    TrimAllInside(clipped, posterior, baseShift, postTrim);
    assert AllWithin(trimmed, lo, hi) by {
      forall k | 0 <= k < |trimmed|
        ensures lo <= trimmed[k].start && trimmed[k].end <= hi
      {
        var j :| 0 <= j < |clipped| && clipped[j].start <= trimmed[k].start && trimmed[k].end <= clipped[j].end;
      }
    }

    var merged := MergeAndFilter(trimmed);
    MergeAndFilterWithin(trimmed, lo, hi);
    MergeAndFilterSpec(trimmed);

    var out := ContentFilter(sequence, merged);
    ContentFilterMembers(sequence, merged);
    ContentFilterSeparated(sequence, merged);
    assert AllWithin(out, lo, hi) && AllLong(out) by {
      forall k | 0 <= k < |out|
        ensures lo <= out[k].start && out[k].end <= hi && Length(out[k]) >= MIN_CPG_LEN
      {
        var j :| 0 <= j < |merged| && merged[j] == out[k];
      }
    }
    SeparatedLongSorted(out);
  }

  /** The filter chain of a window, one call per step, computing exactly FilterChain. */
  method FilterWindow(sequence: string, islands: seq<CpgRegion>, posterior: seq<real>, baseShift: int,
                      postTrim: real, lo: int, hi: int)
    returns (out: seq<CpgRegion>)
    ensures out == FilterChain(sequence, islands, posterior, baseShift, postTrim, lo, hi)
  {
    var clipped := KeepAndClip(islands, lo, hi);
    var trimmed := TrimIslandsWithPosterior(clipped, posterior, baseShift, postTrim);
    var merged := FilterLengthAndMergeCloseIslands(trimmed);
    out := FilterByContent(sequence, merged);
  }

  /**
   * The islands of window [startD, endD) given its posterior: the runs of the
   * decoded states, moved by startD into global coordinates and passed
   * through the filter chain with the window's keep range.
   */
  function WindowIslands(sequence: string, posterior: seq<real>, startD: int, endD: int, T: int,
                         postEnter: real, postExit: real, postTrim: real, overlap: int): seq<CpgRegion>
  {
    FilterChain(sequence, ShiftAll(Runs(Decoded(posterior, postEnter, postExit)), startD), posterior, startD,
                postTrim, KeepLeft(startD, overlap) + 1, KeepRight(endD, T, overlap) + 1)
  }

  /**
   * Every island of a window lies in [KeepLeft + 1, KeepRight + 1], has at
   * least MIN_CPG_LEN bases, passes the content test, and the list is
   * ordered by start with any two islands more than MERGE_DISTANCE apart.
   */
  lemma WindowIslandsSpec(sequence: string, posterior: seq<real>, startD: int, endD: int, T: int,
                          postEnter: real, postExit: real, postTrim: real, overlap: int)
    ensures var islands := WindowIslands(sequence, posterior, startD, endD, T, postEnter, postExit, postTrim, overlap);
      AllWithin(islands, KeepLeft(startD, overlap) + 1, KeepRight(endD, T, overlap) + 1) &&
      SortedByStart(islands) && AllLong(islands) && Separated(islands) &&
      forall k :: 0 <= k < |islands| ==> PassesContent(sequence, islands[k])
  {
    FilterChainSpec(sequence, ShiftAll(Runs(Decoded(posterior, postEnter, postExit)), startD), posterior, startD,
                    postTrim, KeepLeft(startD, overlap) + 1, KeepRight(endD, T, overlap) + 1);
  }

  /** A machine that never reads a value at or above `enter` stays OUT. */
  lemma {:induction false} StaysOut(p: seq<real>, enter: real, exit: real, t: int)
    requires 0 <= t < |p|
    requires forall u :: 0 <= u < |p| ==> p[u] < enter
    ensures !InAt(p, enter, exit, t)
  {
    if t > 0 {
      StaysOut(p, enter, exit, t - 1);
    }
  }

  /** A window whose posterior never reaches `enter` reports no island. */
  lemma QuietWindowEmpty(sequence: string, posterior: seq<real>, startD: int, endD: int, T: int,
                         postEnter: real, postExit: real, postTrim: real, overlap: int)
    requires forall u :: 0 <= u < |posterior| ==> posterior[u] < postEnter
    ensures WindowIslands(sequence, posterior, startD, endD, T, postEnter, postExit, postTrim, overlap) == []
  {
    var st := Decoded(posterior, postEnter, postExit);
    forall t | 0 <= t < |st|
      ensures st[t] == 0
    {
      StaysOut(posterior, postEnter, postExit, t);
    }
    NoOnesNoRuns(st, 0);
    assert ShiftAll(Runs(st), startD) == [];
  }

  /** Decodes the window, extracts its islands and moves them by startD into global coordinates. */
  method ShiftedRuns(posterior: seq<real>, postEnter: real, postExit: real, startD: int)
    returns (shifted: seq<CpgRegion>)
    ensures shifted == ShiftAll(Runs(Decoded(posterior, postEnter, postExit)), startD)
  {
    var states := DecodeHysteresis(posterior, postEnter, postExit);
    DecodedStartsOut(posterior, postEnter, postExit);
    var islands := ExtractCpgIslands([], states);
    assert islands == Runs(states);
    shifted := ShiftIslands(islands, startD);
  }

  /**
   * One window [startD, endD) of the dinucleotide sequence, given its
   * posterior: decode, extract islands, shift them by startD into global
   * coordinates, keep what lies in the keep range, trim, merge and filter by
   * length and content.
   */
  method ProcessWindow(sequence: string, posterior: seq<real>, startD: int, endD: int, T: int,
                       postEnter: real, postExit: real, postTrim: real, overlap: int)
    returns (islands: seq<CpgRegion>)
    ensures islands == WindowIslands(sequence, posterior, startD, endD, T, postEnter, postExit, postTrim, overlap)
  {
    var shifted := ShiftedRuns(posterior, postEnter, postExit, startD);
    var keepLeft := if startD == 0 then startD else startD + Half(overlap);
    var keepRight := if endD == T then endD else endD - Half(overlap);
    assert keepLeft == KeepLeft(startD, overlap) && keepRight == KeepRight(endD, T, overlap);
    islands := FilterWindow(sequence, shifted, posterior, startD, postTrim, keepLeft + 1, keepRight + 1);
    WindowIslandsIs(sequence, posterior, startD, endD, T, postEnter, postExit, postTrim, overlap, shifted, islands);
  }

  /** The filter chain applied to the shifted runs, with the window's keep range, is the window's islands. */
  lemma WindowIslandsIs(sequence: string, posterior: seq<real>, startD: int, endD: int, T: int,
                        postEnter: real, postExit: real, postTrim: real, overlap: int,
                        shifted: seq<CpgRegion>, out: seq<CpgRegion>)
    requires shifted == ShiftAll(Runs(Decoded(posterior, postEnter, postExit)), startD)
    requires out == FilterChain(sequence, shifted, posterior, startD, postTrim,
                                KeepLeft(startD, overlap) + 1, KeepRight(endD, T, overlap) + 1)
    ensures out == WindowIslands(sequence, posterior, startD, endD, T, postEnter, postExit, postTrim, overlap)
  {
  }
}
