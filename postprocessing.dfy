/**
 * Post-processing of decoded CpG islands: clipping to a window's keep range,
 * trimming by posterior, extraction of runs from a 0/1 state sequence, the
 * shift back into lowercase-inclusive coordinates, merging of close islands
 * with a minimum-length filter, and the GC / CpG observed-over-expected
 * content filter.
 *
 * Each source function rewrites a list of regions passed by reference; here
 * each is a method that takes the list and returns the rewritten list.
 */
module Postprocessing {
  import opened Regions

  /** Minimum island length in bases. */
  const MIN_CPG_LEN: int := 250
  /** Islands whose gap is at most this many bases are merged. */
  const MERGE_DISTANCE: int := 50
  /** Minimum (C+G)/length, 0.44, as the fraction 44/100. */
  const MIN_GC_NUM: int := 44
  const MIN_GC_DEN: int := 100
  /** Minimum CpG observed/expected ratio, 0.5, as the fraction 1/2. */
  const MIN_OE_NUM: int := 1
  const MIN_OE_DEN: int := 2

  // ---------------------------------------------------------------------------
  // keep_and_clip

  /** The intersection of r with [keepStart, keepEnd], when it is not empty. */
  function Clip(r: CpgRegion, keepStart: int, keepEnd: int): Option<CpgRegion> {
    var s := Max(r.start, keepStart);
    var e := Min(r.end, keepEnd);
    if e >= s then Some(CpgRegion(s, e, r.chromosome)) else None
  }

  function ClipAll(s: seq<CpgRegion>, keepStart: int, keepEnd: int): (r: seq<CpgRegion>)
    ensures |r| <= |s|
  {
    if s == [] then []
    else
      var init := ClipAll(s[..|s| - 1], keepStart, keepEnd);
      match Clip(s[|s| - 1], keepStart, keepEnd)
      case Some(c) => init + [c]
      case None => init
  }

  method KeepAndClip(islands: seq<CpgRegion>, keepStart: int, keepEnd: int) returns (out: seq<CpgRegion>)
    ensures out == ClipAll(islands, keepStart, keepEnd)
  {
    out := [];
    for i := 0 to |islands|
      invariant out == ClipAll(islands[..i], keepStart, keepEnd)
    {
      var r := islands[i];
      var s := Max(r.start, keepStart);
      var e := Min(r.end, keepEnd);
      if e >= s {
        out := out + [CpgRegion(s, e, r.chromosome)];
      }
      assert islands[..i + 1][..i] == islands[..i];
    }
    assert islands[..|islands|] == islands;
  }

  /**
   * Every clipped region lies in [keepStart, keepEnd], is non-empty, and lies
   * inside an input region of the same chromosome.
   */
  lemma {:induction false} ClipAllInside(s: seq<CpgRegion>, keepStart: int, keepEnd: int)
    ensures forall k :: 0 <= k < |ClipAll(s, keepStart, keepEnd)| ==>
      var c := ClipAll(s, keepStart, keepEnd)[k];
      keepStart <= c.start <= c.end <= keepEnd &&
      exists j :: 0 <= j < |s| && s[j].start <= c.start && c.end <= s[j].end && s[j].chromosome == c.chromosome
  {
    if s != [] {
      var init := s[..|s| - 1];
      ClipAllInside(init, keepStart, keepEnd);
      forall k | 0 <= k < |ClipAll(s, keepStart, keepEnd)|
        ensures var c := ClipAll(s, keepStart, keepEnd)[k];
          keepStart <= c.start <= c.end <= keepEnd &&
          exists j :: 0 <= j < |s| && s[j].start <= c.start && c.end <= s[j].end && s[j].chromosome == c.chromosome
      {
        var c := ClipAll(s, keepStart, keepEnd)[k];
        if k < |ClipAll(init, keepStart, keepEnd)| {
          assert c == ClipAll(init, keepStart, keepEnd)[k];
          var j :| 0 <= j < |init| && init[j].start <= c.start && c.end <= init[j].end && init[j].chromosome == c.chromosome;
          assert s[j] == init[j];
        } else {
          assert s[|s| - 1].start <= c.start;
        }
      }
    }
  }

  /**
   * A position is covered after clipping exactly when it was covered before
   * and lies in the keep range: clipping replaces each region by its
   * intersection with the range and drops only empty intersections.
   */
  lemma {:induction false} ClipAllCoverage(s: seq<CpgRegion>, keepStart: int, keepEnd: int, x: int)
    ensures Covers(ClipAll(s, keepStart, keepEnd), x) <==> Covers(s, x) && keepStart <= x <= keepEnd
  {
    if s == [] {
    } else {
      var init := s[..|s| - 1];
      var last := s[|s| - 1];
      assert s == init + [last];
      ClipAllCoverage(init, keepStart, keepEnd, x);
      CoversAppend(init, last, x);
      match Clip(last, keepStart, keepEnd)
      case Some(c) =>
        CoversAppend(ClipAll(init, keepStart, keepEnd), c, x);
      case None =>
    }
  }

  // ---------------------------------------------------------------------------
  // trim_islands_with_posterior

  /** The first local position d in [lo, hi] with p[d-1] >= th, or hi + 1 (lo when lo > hi). */
  function FirstAtLeast(p: seq<real>, th: real, lo: int, hi: int): (d: int)
    requires 1 <= lo && hi <= |p|
    ensures lo <= d
    decreases hi - lo + 1
  {
    if lo > hi || p[lo - 1] >= th then lo else FirstAtLeast(p, th, lo + 1, hi)
  }

  /** The last local position d in [lo, hi] with p[d-1] >= th, or lo - 1 (hi when hi < lo). */
  function LastAtLeast(p: seq<real>, th: real, lo: int, hi: int): (d: int)
    requires 1 <= lo && hi <= |p|
    ensures d <= hi
    decreases hi - lo + 1
  {
    if hi < lo || p[hi - 1] >= th then hi else LastAtLeast(p, th, lo, hi - 1)
  }

  /**
   * The scan from the left stops on the first position at or above th and
   * passes only positions below it (quantified over 0-based indices e = d-1).
   */
  lemma {:induction false} FirstAtLeastSpec(p: seq<real>, th: real, lo: int, hi: int)
    requires 1 <= lo && hi <= |p|
    ensures var d := FirstAtLeast(p, th, lo, hi);
      (lo <= hi ==> d <= hi + 1) &&
      (d <= hi ==> p[d - 1] >= th) &&
      forall e :: lo - 1 <= e < d - 1 && e < hi ==> p[e] < th
    decreases hi - lo + 1
  {
    if !(lo > hi || p[lo - 1] >= th) {
      FirstAtLeastSpec(p, th, lo + 1, hi);
    }
  }

  /** The scan from the right, symmetrically. */
  lemma {:induction false} LastAtLeastSpec(p: seq<real>, th: real, lo: int, hi: int)
    requires 1 <= lo && hi <= |p|
    ensures var d := LastAtLeast(p, th, lo, hi);
      (lo <= hi ==> lo - 1 <= d) &&
      (lo <= d ==> p[d - 1] >= th) &&
      forall e :: d <= e < hi && lo - 1 <= e ==> p[e] < th
    decreases hi - lo + 1
  {
    if !(hi < lo || p[hi - 1] >= th) {
      LastAtLeastSpec(p, th, lo, hi - 1);
    }
  }

  /** Local (1-based, window-relative) dinucleotide range of region r. */
  function LocalLo(r: CpgRegion, baseShift: int): int { Max(1, r.start - baseShift) }
  function LocalHi(r: CpgRegion, maxD: int, baseShift: int): int { Min(maxD, r.end - baseShift - 1) }

  function TrimOne(r: CpgRegion, p: seq<real>, baseShift: int, th: real): Option<CpgRegion> {
    var lo := LocalLo(r, baseShift);
    var hi := LocalHi(r, |p|, baseShift);
    var ds := FirstAtLeast(p, th, lo, hi);
    var de := LastAtLeast(p, th, ds, hi);
    if ds <= de then Some(CpgRegion(ds + baseShift, de + 1 + baseShift, r.chromosome)) else None
  }

  function TrimAll(s: seq<CpgRegion>, p: seq<real>, baseShift: int, th: real): (r: seq<CpgRegion>)
    ensures |r| <= |s|
  {
    if s == [] then []
    else
      var init := TrimAll(s[..|s| - 1], p, baseShift, th);
      match TrimOne(s[|s| - 1], p, baseShift, th)
      case Some(c) => init + [c]
      case None => init
  }

  /**
   * Trimming one island: a survivor lies inside its input region, starts and
   * ends on local positions whose posterior is at least th, and every local
   * position it gave up is below th; the island is dropped exactly when all of
   * its local positions are below th.
   */
  lemma TrimOneSpec(r: CpgRegion, p: seq<real>, baseShift: int, th: real)
    ensures var lo := LocalLo(r, baseShift);
      var hi := LocalHi(r, |p|, baseShift);
      match TrimOne(r, p, baseShift, th)
      case Some(t) =>
        r.start <= t.start < t.end <= r.end && t.chromosome == r.chromosome &&
        1 <= t.start - baseShift <= t.end - 1 - baseShift <= |p| &&
        p[t.start - baseShift - 1] >= th && p[t.end - 1 - baseShift - 1] >= th &&
        (forall e :: lo - 1 <= e < t.start - baseShift - 1 ==> p[e] < th) &&
        (forall e :: t.end - 1 - baseShift <= e < hi ==> p[e] < th)
      case None =>
        forall e :: lo - 1 <= e < hi ==> p[e] < th
  {
    var lo := LocalLo(r, baseShift);
    var hi := LocalHi(r, |p|, baseShift);
    FirstAtLeastSpec(p, th, lo, hi);
    var ds := FirstAtLeast(p, th, lo, hi);
    LastAtLeastSpec(p, th, ds, hi);
  }

  method TrimIslandsWithPosterior(islands: seq<CpgRegion>, posterior: seq<real>, baseShift: int, trimTh: real)
    returns (trimmed: seq<CpgRegion>)
    ensures trimmed == TrimAll(islands, posterior, baseShift, trimTh)
  {
    trimmed := [];
    for i := 0 to |islands|
      invariant trimmed == TrimAll(islands[..i], posterior, baseShift, trimTh)
    {
      var t := TrimIsland(islands[i], posterior, baseShift, trimTh);
      if t.Some? {
        trimmed := trimmed + [t.value];
      }
      assert islands[..i + 1][..i] == islands[..i];
    }
    assert islands[..|islands|] == islands;
  }

  /** The two trimming loops of one island: advance the start, then pull back the end. */
  method TrimIsland(r: CpgRegion, posterior: seq<real>, baseShift: int, trimTh: real) returns (t: Option<CpgRegion>)
    ensures t == TrimOne(r, posterior, baseShift, trimTh)
  {
    var maxD := |posterior|;
    var dStart := Max(1, r.start - baseShift);
    var dEnd := Min(maxD, r.end - baseShift - 1);
    ghost var lo, hi := dStart, dEnd;
    while dStart <= dEnd && posterior[dStart - 1] < trimTh
      invariant lo <= dStart && (lo <= hi ==> dStart <= hi + 1)
      invariant FirstAtLeast(posterior, trimTh, lo, hi) == FirstAtLeast(posterior, trimTh, dStart, hi)
      decreases dEnd - dStart
    {
      dStart := dStart + 1;
    }
    while dEnd >= dStart && posterior[dEnd - 1] < trimTh
      invariant dEnd <= hi
      invariant LastAtLeast(posterior, trimTh, dStart, hi) == LastAtLeast(posterior, trimTh, dStart, dEnd)
      decreases dEnd - dStart
    {
      dEnd := dEnd - 1;
    }
    t := if dStart <= dEnd then Some(CpgRegion(dStart + baseShift, dEnd + 1 + baseShift, r.chromosome)) else None;
  }

  /** Every trimmed island lies inside an island of the input. */
  lemma {:induction false} TrimAllInside(s: seq<CpgRegion>, p: seq<real>, baseShift: int, th: real)
    ensures forall k :: 0 <= k < |TrimAll(s, p, baseShift, th)| ==>
      var t := TrimAll(s, p, baseShift, th)[k];
      t.start <= t.end &&
      exists j :: 0 <= j < |s| && s[j].start <= t.start && t.end <= s[j].end
  {
    if s != [] {
      var init := s[..|s| - 1];
      TrimAllInside(init, p, baseShift, th);
      TrimOneSpec(s[|s| - 1], p, baseShift, th);
      forall k | 0 <= k < |TrimAll(s, p, baseShift, th)|
        ensures var t := TrimAll(s, p, baseShift, th)[k];
          t.start <= t.end &&
          exists j :: 0 <= j < |s| && s[j].start <= t.start && t.end <= s[j].end
      {
        var t := TrimAll(s, p, baseShift, th)[k];
        if k < |TrimAll(init, p, baseShift, th)| {
          assert t == TrimAll(init, p, baseShift, th)[k];
          var j :| 0 <= j < |init| && init[j].start <= t.start && t.end <= init[j].end;
          assert s[j] == init[j];
        } else {
          assert s[|s| - 1].start <= t.start;
        }
      }
    }
  }

  // ---------------------------------------------------------------------------
  // extract_cpg_islands

  predicate IsBinary(states: seq<int>) {
    forall i :: 0 <= i < |states| ==> states[i] == 0 || states[i] == 1
  }

  /**
   * r is the base interval of a maximal run of 1s: the run covers 0-based
   * state indices r.start-1 .. r.end-2 (a run of dinucleotides i..k spans
   * bases i+1 .. k+2) and is bounded by a 0 or by the end of the sequence on
   * both sides.
   */
  predicate IsMaximalRun(states: seq<int>, r: CpgRegion) {
    1 <= r.start < r.end <= |states| + 1 && r.chromosome == 0 &&
    (forall u :: r.start - 1 <= u < r.end - 1 ==> states[u] == 1) &&
    (r.start == 1 || states[r.start - 2] == 0) &&
    (r.end == |states| + 1 || states[r.end - 1] == 0)
  }

  /** Every region from index `from` on is a maximal run. */
  predicate AllRuns(states: seq<int>, out: seq<CpgRegion>, from: nat) {
    forall k :: from <= k < |out| ==> IsMaximalRun(states, out[k])
  }

  /** Regions from index `from` on are in order, each ending before the next starts. */
  predicate InOrder(out: seq<CpgRegion>, from: nat) {
    forall k :: from <= k < |out| - 1 ==> out[k].end < out[k + 1].start
  }

  /** State index u lies in one of the runs from index `from` on. */
  predicate InSomeRun(out: seq<CpgRegion>, from: nat, u: int) {
    exists k :: from <= k < |out| && out[k].start <= u + 1 < out[k].end
  }

  /** Appending a closed run after the last one keeps the run list well formed. */
  lemma AppendRun(states: seq<int>, before: seq<CpgRegion>, from: nat, r: CpgRegion, i: int)
    requires from <= |before| && i < |states|
    requires AllRuns(states, before, from) && InOrder(before, from)
    requires IsMaximalRun(states, r)
    requires from < |before| ==> before[|before| - 1].end < r.start
    requires forall u :: 0 <= u <= i && states[u] == 1 ==> InSomeRun(before, from, u) || r.start - 1 <= u < r.end - 1
    ensures AllRuns(states, before + [r], from) && InOrder(before + [r], from)
    ensures forall u :: 0 <= u <= i && states[u] == 1 ==> InSomeRun(before + [r], from, u)
  {
    var out := before + [r];
    forall u | 0 <= u <= i && states[u] == 1
      ensures InSomeRun(out, from, u)
    {
      if r.start - 1 <= u < r.end - 1 {
        assert out[|out| - 1] == r;
      } else {
        var k :| from <= k < |before| && before[k].start <= u + 1 < before[k].end;
        assert out[k] == before[k];
      }
    }
  }

  /**
   * The state of the extraction loop after the first i states: `out` holds
   * the runs closed so far, `startD` is the 1-based start of the open run or
   * -1, and every 1 before i lies in a closed run or in the open one.
   */
  predicate Extracting(states: seq<int>, from: nat, out: seq<CpgRegion>, startD: int, i: int) {
    0 <= i <= |states| && from <= |out| &&
    (startD != -1 ==> 1 <= startD <= i < |states|) &&
    (startD != -1 ==> forall u :: startD - 1 <= u < i ==> states[u] == 1) &&
    (startD != -1 ==> startD == 1 || states[startD - 2] == 0) &&
    (startD == -1 && 0 < i < |states| ==> states[i - 1] == 0) &&
    AllRuns(states, out, from) && InOrder(out, from) &&
    (from < |out| && i < |states| ==> out[|out| - 1].end <= i) &&
    (from < |out| && startD != -1 ==> out[|out| - 1].end < startD) &&
    (forall u :: 0 <= u < i && states[u] == 1 ==> InSomeRun(out, from, u) || (startD != -1 && startD - 1 <= u))
  }

  /** Reading state i without closing a run: the open run starts or goes on, or nothing is open. */
  lemma KeepStep(states: seq<int>, from: nat, out: seq<CpgRegion>, startD0: int, startD: int, i: int)
    requires IsBinary(states) && i < |states|
    requires Extracting(states, from, out, startD0, i)
    requires startD == if states[i] == 1 && startD0 == -1 then i + 1 else startD0
    requires !((states[i] == 0 || i == |states| - 1) && startD != -1)
    ensures Extracting(states, from, out, startD, i + 1)
  {
    forall u | 0 <= u < i + 1 && states[u] == 1
      ensures InSomeRun(out, from, u) || (startD != -1 && startD - 1 <= u)
    {
      if u < i && !InSomeRun(out, from, u) {
        assert startD0 != -1;
      }
    }
  }

  /** Reading state i closes the open run r, which is then appended to `out`. */
  lemma CloseStep(states: seq<int>, from: nat, out: seq<CpgRegion>, startD0: int, i: int, r: CpgRegion)
    requires IsBinary(states) && i < |states|
    requires Extracting(states, from, out, startD0, i)
    requires startD0 != -1 || states[i] == 1
    requires states[i] == 0 || i == |states| - 1
    requires r == CpgRegion(if startD0 == -1 then i + 1 else startD0,
                            (if states[i] == 0 then i else i + 1) + 1, 0)
    ensures Extracting(states, from, out + [r], -1, i + 1)
  {
    assert IsMaximalRun(states, r);
    forall u | 0 <= u <= i && states[u] == 1
      ensures InSomeRun(out, from, u) || r.start - 1 <= u < r.end - 1
    {
    }
    AppendRun(states, out, from, r, i);
  }

  /** Once every state is read no run is open, so every 1 lies in a closed run. */
  lemma ExtractDone(states: seq<int>, from: nat, out: seq<CpgRegion>, startD: int)
    requires Extracting(states, from, out, startD, |states|)
    ensures forall k :: from <= k < |out| ==> IsMaximalRun(states, out[k])
    ensures forall k :: from <= k < |out| - 1 ==> out[k].end < out[k + 1].start
    ensures forall u :: 0 <= u < |states| && states[u] == 1 ==>
      exists k :: from <= k < |out| && out[k].start <= u + 1 < out[k].end
  {
    forall u | 0 <= u < |states| && states[u] == 1
      ensures InSomeRun(out, from, u)
    {
    }
  }

  /**
   * The regions the extraction loop closes from state i on, when `startD` is
   * the 1-based start of the open run (or -1): a run opens at a 1 read with
   * no run open, and closes at a 0, or at the last state, as [start, end+1]
   * where end is i for a 0 and i+1 for the last state.
   */
  function RunsFrom(states: seq<int>, i: nat, startD: int): seq<CpgRegion>
    requires i <= |states|
    decreases |states| - i
  {
    if i == |states| then []
    else
      var sd := if states[i] == 1 && startD == -1 then i + 1 else startD;
      if (states[i] == 0 || i == |states| - 1) && sd != -1 then
        [CpgRegion(sd, (if states[i] == 0 then i else i + 1) + 1, 0)] + RunsFrom(states, i + 1, -1)
      else
        RunsFrom(states, i + 1, sd)
  }

  /** The islands extracted from a whole state sequence. */
  function Runs(states: seq<int>): seq<CpgRegion> {
    RunsFrom(states, 0, -1)
  }

  /** From index `from` on, the list holds maximal runs in order, and every 1 lies in one of them. */
  predicate RunList(states: seq<int>, all: seq<CpgRegion>, from: nat) {
    AllRuns(states, all, from) && InOrder(all, from) &&
    forall u :: 0 <= u < |states| && states[u] == 1 ==> InSomeRun(all, from, u)
  }

  /** From any loop state, the regions still to be closed complete the run list. */
  lemma {:induction false} RunsFromSpec(states: seq<int>, from: nat, out: seq<CpgRegion>, startD: int, i: nat)
    requires IsBinary(states) && i <= |states|
    requires Extracting(states, from, out, startD, i)
    ensures RunList(states, out + RunsFrom(states, i, startD), from)
    decreases |states| - i
  {
    if i == |states| {
      assert out + RunsFrom(states, i, startD) == out;
      forall u | 0 <= u < |states| && states[u] == 1
        ensures InSomeRun(out, from, u)
      {
      }
    } else {
      var sd := if states[i] == 1 && startD == -1 then i + 1 else startD;
      if (states[i] == 0 || i == |states| - 1) && sd != -1 {
        var r := CpgRegion(sd, (if states[i] == 0 then i else i + 1) + 1, 0);
        CloseStep(states, from, out, startD, i, r);
        RunsFromSpec(states, from, out + [r], -1, i + 1);
        RunsClose(states, i, startD, out, r);
      } else {
        KeepStep(states, from, out, startD, sd, i);
        RunsFromSpec(states, from, out, sd, i + 1);
        RunsKeep(states, i, startD, sd);
      }
    }
  }

  /** Reading state i closes the open run r: it is the next region closed. */
  lemma RunsClose(states: seq<int>, i: nat, startD: int, out: seq<CpgRegion>, r: CpgRegion)
    requires i < |states| && (states[i] == 0 || i == |states| - 1)
    requires startD != -1 || states[i] == 1
    requires r == CpgRegion(if startD == -1 then i + 1 else startD, (if states[i] == 0 then i else i + 1) + 1, 0)
    ensures out + RunsFrom(states, i, startD) == (out + [r]) + RunsFrom(states, i + 1, -1)
  {
    var rest := RunsFrom(states, i + 1, -1);
    assert RunsFrom(states, i, startD) == [r] + rest;
    assert out + ([r] + rest) == (out + [r]) + rest;
  }

  /** Reading state i without closing a run closes nothing yet. */
  lemma RunsKeep(states: seq<int>, i: nat, startD: int, sd: int)
    requires i < |states|
    requires sd == if states[i] == 1 && startD == -1 then i + 1 else startD
    requires !((states[i] == 0 || i == |states| - 1) && sd != -1)
    ensures RunsFrom(states, i, startD) == RunsFrom(states, i + 1, sd)
  {
  }

  /**
   * The extracted islands are exactly maximal runs of 1s as 1-based base
   * intervals, in order with a gap between neighbours, and every 1 lies in
   * one of them.
   */
  lemma RunsSpec(states: seq<int>)
    requires IsBinary(states)
    ensures forall k :: 0 <= k < |Runs(states)| ==> IsMaximalRun(states, Runs(states)[k])
    ensures forall k :: 0 <= k < |Runs(states)| - 1 ==> Runs(states)[k].end < Runs(states)[k + 1].start
    ensures forall u :: 0 <= u < |states| && states[u] == 1 ==>
      exists k :: 0 <= k < |Runs(states)| && Runs(states)[k].start <= u + 1 < Runs(states)[k].end
  {
    RunsFromSpec(states, 0, [], -1, 0);
    assert [] + Runs(states) == Runs(states);
    forall u | 0 <= u < |states| && states[u] == 1
      ensures InSomeRun(Runs(states), 0, u)
    {
    }
  }

  /** With no 1 from state i on and no run open, nothing more is closed. */
  lemma {:induction false} NoOnesNoRuns(states: seq<int>, i: nat)
    requires i <= |states|
    requires forall u :: 0 <= u < |states| ==> states[u] == 0
    ensures RunsFrom(states, i, -1) == []
    decreases |states| - i
  {
    if i < |states| {
      NoOnesNoRuns(states, i + 1);
    }
  }

  /**
   * Appends one region per maximal run of 1s, in order, leaving the existing
   * entries untouched; every 1 lies in one of the appended runs.
   */
  method ExtractCpgIslands(islands: seq<CpgRegion>, states: seq<int>) returns (out: seq<CpgRegion>)
    requires IsBinary(states)
    ensures out == islands + Runs(states)
    ensures |islands| <= |out| && out[..|islands|] == islands
    ensures forall k :: |islands| <= k < |out| ==> IsMaximalRun(states, out[k])
    ensures forall k :: |islands| <= k < |out| - 1 ==> out[k].end < out[k + 1].start
    ensures forall u :: 0 <= u < |states| && states[u] == 1 ==>
      exists k :: |islands| <= k < |out| && out[k].start <= u + 1 < out[k].end
  {
    out := islands;
    var n := |states|;
    var startD := -1;
    var i := 0;
    while i < n
      invariant Extracting(states, |islands|, out, startD, i)
      invariant islands <= out
      invariant out + RunsFrom(states, i, startD) == islands + Runs(states)
    {
      ghost var startD0 := startD;
      if states[i] == 1 && startD == -1 {
        startD := i + 1;
      }
      if (states[i] == 0 || i == n - 1) && startD != -1 {
        var endD := if states[i] == 0 then i else i + 1;
        var startBp := startD;
        var endBp := endD + 1;
        CloseStep(states, |islands|, out, startD0, i, CpgRegion(startBp, endBp, 0));
        RunsClose(states, i, startD0, out, CpgRegion(startBp, endBp, 0));
        out := out + [CpgRegion(startBp, endBp, 0)];
        startD := -1;
      } else {
        KeepStep(states, |islands|, out, startD0, startD, i);
        RunsKeep(states, i, startD0, startD);
      }
      i := i + 1;
    }
    ExtractDone(states, |islands|, out, startD);
    assert out + RunsFrom(states, i, startD) == out;
  }

  // ---------------------------------------------------------------------------
  // the offset loop of move_predicted_based_on_lowercase

  /**
   * Offset that re-inserts the lowercase regions in front of a prediction
   * starting at pStart: walking the regions in order, a region is counted
   * while its start is at or before the prediction's start shifted by the
   * offset so far, and the walk stops at the first region that is not.
   */
  function OffsetFrom(lc: seq<LowerCaseRegion>, pStart: int, offset: int): int
    decreases |lc|
  {
    if lc == [] || lc[0].start > pStart + offset then offset
    else OffsetFrom(lc[1..], pStart, offset + (lc[0].end - lc[0].start + 1))
  }

  function Shift(p: CpgRegion, lc: seq<LowerCaseRegion>): CpgRegion {
    var offset := OffsetFrom(lc, p.start, 0);
    p.(start := p.start + offset, end := p.end + offset)
  }

  predicate WellFormed(lc: seq<LowerCaseRegion>) {
    forall k :: 0 <= k < |lc| ==> lc[k].start <= lc[k].end
  }

  /** With well-formed regions the offset never decreases while walking. */
  lemma {:induction false} OffsetFromAtLeast(lc: seq<LowerCaseRegion>, pStart: int, offset: int)
    requires WellFormed(lc)
    ensures OffsetFrom(lc, pStart, offset) >= offset
    decreases |lc|
  {
    if !(lc == [] || lc[0].start > pStart + offset) {
      OffsetFromAtLeast(lc[1..], pStart, offset + (lc[0].end - lc[0].start + 1));
    }
  }

  /**
   * Shifting moves start and end by the same amount, so the length and the
   * chromosome are kept; the amount is non-negative for well-formed regions.
   */
  method MoveByLowercase(predicted: seq<CpgRegion>, lc: seq<LowerCaseRegion>) returns (out: seq<CpgRegion>)
    ensures |out| == |predicted|
    ensures forall k :: 0 <= k < |out| ==> out[k] == Shift(predicted[k], lc)
    ensures forall k :: 0 <= k < |out| ==>
      Length(out[k]) == Length(predicted[k]) && out[k].chromosome == predicted[k].chromosome &&
      out[k].start - predicted[k].start == out[k].end - predicted[k].end
    ensures WellFormed(lc) ==> forall k :: 0 <= k < |out| ==> out[k].start >= predicted[k].start
  {
    out := predicted;
    for k := 0 to |out|
      invariant |out| == |predicted|
      invariant forall m :: 0 <= m < k ==> out[m] == Shift(predicted[m], lc)
      invariant forall m :: k <= m < |out| ==> out[m] == predicted[m]
    {
      var p := out[k];
      var offset := 0;
      var j := 0;
      while j < |lc|
        invariant 0 <= j <= |lc|
        invariant OffsetFrom(lc, p.start, 0) == OffsetFrom(lc[j..], p.start, offset)
      {
        if lc[j].start <= p.start + offset {
          offset := offset + (lc[j].end - lc[j].start + 1);
        } else {
          break;
        }
        assert lc[j..][1..] == lc[j + 1..];
        j := j + 1;
      }
      out := out[k := p.(start := p.start + offset, end := p.end + offset)];
    }
    if WellFormed(lc) {
      forall k | 0 <= k < |out|
        ensures out[k].start >= predicted[k].start
      {
        OffsetFromAtLeast(lc, predicted[k].start, 0);
      }
    }
  }

  // ---------------------------------------------------------------------------
  // filter_lenght_and_merge_close_islands

  /**
   * The merge pass over a list sorted by start, with `cur` the region being
   * grown: a region whose start is at most MERGE_DISTANCE past the end of
   * `cur` extends it, any other region closes `cur` and becomes the new one.
   */
  function MergeFrom(cur: CpgRegion, rest: seq<CpgRegion>): (r: seq<CpgRegion>)
    ensures 1 <= |r| <= |rest| + 1
    ensures r[0].start == cur.start && r[0].end >= cur.end
    decreases |rest|
  {
    if rest == [] then [cur]
    else if rest[0].start - cur.end <= MERGE_DISTANCE then
      MergeFrom(cur.(end := Max(cur.end, rest[0].end)), rest[1..])
    else
      [cur] + MergeFrom(rest[0], rest[1..])
  }

  function MergeClose(s: seq<CpgRegion>): (r: seq<CpgRegion>)
    ensures |r| <= |s|
  {
    if s == [] then [] else MergeFrom(s[0], s[1..])
  }

  function KeepLong(s: seq<CpgRegion>): (r: seq<CpgRegion>)
    ensures |r| <= |s|
  {
    if s == [] then []
    else
      var init := KeepLong(s[..|s| - 1]);
      if Length(s[|s| - 1]) >= MIN_CPG_LEN then init + [s[|s| - 1]] else init
  }

  /** Sort by start, merge close regions, keep those of at least MIN_CPG_LEN bases. */
  function MergeAndFilter(s: seq<CpgRegion>): seq<CpgRegion> {
    if s == [] then [] else KeepLong(MergeClose(SortByStart(s)))
  }

  /** Any two regions of the list, in order, are more than MERGE_DISTANCE apart. */
  predicate Separated(s: seq<CpgRegion>) {
    forall i, j :: 0 <= i < j < |s| ==> s[j].start - s[i].end > MERGE_DISTANCE
  }

  predicate AllLong(s: seq<CpgRegion>) {
    forall k :: 0 <= k < |s| ==> Length(s[k]) >= MIN_CPG_LEN
  }

  /** `cur` followed by `rest` is sorted by start. */
  predicate SortedAfter(cur: CpgRegion, rest: seq<CpgRegion>) {
    SortedByStart(rest) && forall k :: 0 <= k < |rest| ==> cur.start <= rest[k].start
  }

  /** No merged region starts before `cur`. */
  lemma {:induction false} MergeFromStarts(cur: CpgRegion, rest: seq<CpgRegion>)
    requires SortedAfter(cur, rest)
    ensures forall k :: 0 <= k < |MergeFrom(cur, rest)| ==> cur.start <= MergeFrom(cur, rest)[k].start
    decreases |rest|
  {
    if rest != [] {
      if rest[0].start - cur.end <= MERGE_DISTANCE {
        MergeFromStarts(cur.(end := Max(cur.end, rest[0].end)), rest[1..]);
      } else {
        MergeFromStarts(rest[0], rest[1..]);
      }
    }
  }

  /** Merged regions are more than MERGE_DISTANCE apart, pair by pair. */
  lemma {:induction false} MergeFromSeparated(cur: CpgRegion, rest: seq<CpgRegion>)
    requires SortedAfter(cur, rest)
    ensures Separated(MergeFrom(cur, rest))
    decreases |rest|
  {
    if rest != [] {
      if rest[0].start - cur.end <= MERGE_DISTANCE {
        MergeFromSeparated(cur.(end := Max(cur.end, rest[0].end)), rest[1..]);
      } else {
        var tail := MergeFrom(rest[0], rest[1..]);
        MergeFromSeparated(rest[0], rest[1..]);
        MergeFromStarts(rest[0], rest[1..]);
        var r := [cur] + tail;
        assert MergeFrom(cur, rest) == r;
        forall i, j | 0 <= i < j < |r|
          ensures r[j].start - r[i].end > MERGE_DISTANCE
        {
          if i == 0 {
            assert r[j] == tail[j - 1];
          } else {
            assert r[i] == tail[i - 1] && r[j] == tail[j - 1];
          }
        }
      }
    }
  }

  /** Some region of `s` contains the whole of `x`. */
  predicate Within(s: seq<CpgRegion>, x: CpgRegion) {
    exists k :: 0 <= k < |s| && s[k].start <= x.start && x.end <= s[k].end
  }

  /** Every region of `rest` lies inside some merged region. */
  lemma {:induction false} MergeFromCovers(cur: CpgRegion, rest: seq<CpgRegion>)
    requires SortedAfter(cur, rest)
    ensures forall i :: 0 <= i < |rest| ==> Within(MergeFrom(cur, rest), rest[i])
    decreases |rest|
  {
    if rest != [] {
      var r := MergeFrom(cur, rest);
      if rest[0].start - cur.end <= MERGE_DISTANCE {
        var cur' := cur.(end := Max(cur.end, rest[0].end));
        MergeFromCovers(cur', rest[1..]);
        assert r == MergeFrom(cur', rest[1..]);
        forall i | 0 <= i < |rest|
          ensures Within(r, rest[i])
        {
          if i == 0 {
            assert r[0].start <= rest[0].start && rest[0].end <= r[0].end;
          } else {
            assert rest[i] == rest[1..][i - 1];
          }
        }
      } else {
        var tail := MergeFrom(rest[0], rest[1..]);
        MergeFromCovers(rest[0], rest[1..]);
        assert r == [cur] + tail;
        forall i | 0 <= i < |rest|
          ensures Within(r, rest[i])
        {
          if i == 0 {
            assert r[1] == tail[0];
          } else {
            assert rest[i] == rest[1..][i - 1];
            var k :| 0 <= k < |tail| && tail[k].start <= rest[i].start && rest[i].end <= tail[k].end;
            assert r[k + 1] == tail[k];
          }
        }
      }
    }
  }

  /** Merged regions stay within any bounds that hold for `cur` and all of `rest`. */
  lemma {:induction false} MergeFromWithin(cur: CpgRegion, rest: seq<CpgRegion>, lo: int, hi: int)
    requires lo <= cur.start && cur.end <= hi
    requires forall i :: 0 <= i < |rest| ==> lo <= rest[i].start && rest[i].end <= hi
    ensures forall k :: 0 <= k < |MergeFrom(cur, rest)| ==>
      lo <= MergeFrom(cur, rest)[k].start && MergeFrom(cur, rest)[k].end <= hi
    decreases |rest|
  {
    if rest != [] {
      if rest[0].start - cur.end <= MERGE_DISTANCE {
        MergeFromWithin(cur.(end := Max(cur.end, rest[0].end)), rest[1..], lo, hi);
      } else {
        MergeFromWithin(rest[0], rest[1..], lo, hi);
      }
    }
  }

  /** A list whose regions are already more than MERGE_DISTANCE apart is not changed by merging. */
  lemma {:induction false} MergeFromSeparatedIsIdentity(cur: CpgRegion, rest: seq<CpgRegion>)
    requires Separated([cur] + rest)
    ensures MergeFrom(cur, rest) == [cur] + rest
    decreases |rest|
  {
    if rest != [] {
      assert ([cur] + rest)[0] == cur && ([cur] + rest)[1] == rest[0];
      assert [rest[0]] + rest[1..] == rest;
      forall i, j | 0 <= i < j < |rest|
        ensures rest[j].start - rest[i].end > MERGE_DISTANCE
      {
        assert ([cur] + rest)[i + 1] == rest[i] && ([cur] + rest)[j + 1] == rest[j];
      }
      MergeFromSeparatedIsIdentity(rest[0], rest[1..]);
      assert rest[0].start - cur.end > MERGE_DISTANCE;
      assert MergeFrom(cur, rest) == [cur] + MergeFrom(rest[0], rest[1..]);
    }
  }

  /** After merging a sorted list, any two regions are more than MERGE_DISTANCE apart. */
  lemma MergeCloseSeparated(s: seq<CpgRegion>)
    requires SortedByStart(s)
    ensures Separated(MergeClose(s))
  {
    if s != [] {
      MergeFromSeparated(s[0], s[1..]);
    }
  }

  /** Merging a sorted list loses nothing: every input region lies inside a merged one. */
  lemma MergeCloseCovers(s: seq<CpgRegion>)
    requires SortedByStart(s)
    ensures forall i :: 0 <= i < |s| ==> Within(MergeClose(s), s[i])
  {
    if s != [] {
      var r := MergeClose(s);
      MergeFromCovers(s[0], s[1..]);
      forall i | 0 <= i < |s|
        ensures Within(r, s[i])
      {
        if i == 0 {
          assert r[0].start <= s[0].start && s[0].end <= r[0].end;
        } else {
          assert s[i] == s[1..][i - 1];
        }
      }
    }
  }

  lemma {:induction false} KeepLongAllLong(s: seq<CpgRegion>)
    ensures AllLong(KeepLong(s))
  {
    if s != [] {
      KeepLongAllLong(s[..|s| - 1]);
    }
  }

  lemma {:induction false} KeepLongMembers(s: seq<CpgRegion>)
    ensures forall k :: 0 <= k < |KeepLong(s)| ==> KeepLong(s)[k] in s
  {
    if s != [] {
      var init := s[..|s| - 1];
      KeepLongMembers(init);
      var t := KeepLong(init);
      forall k | 0 <= k < |KeepLong(s)|
        ensures KeepLong(s)[k] in s
      {
        if k < |t| {
          assert KeepLong(s)[k] == t[k];
          assert t[k] in init;
        }
      }
    }
  }

  lemma {:induction false} KeepLongSeparated(s: seq<CpgRegion>)
    requires Separated(s)
    ensures Separated(KeepLong(s))
  {
    if s != [] {
      var init := s[..|s| - 1];
      assert Separated(init);
      KeepLongSeparated(init);
      KeepLongMembers(init);
      var t := KeepLong(init);
      var r := KeepLong(s);
      if r != t {
        forall i, j | 0 <= i < j < |r|
          ensures r[j].start - r[i].end > MERGE_DISTANCE
        {
          if j == |t| {
            assert r[i] == t[i];
            var i' :| 0 <= i' < |init| && init[i'] == t[i];
            assert s[i'] == t[i];
          } else {
            assert r[i] == t[i] && r[j] == t[j];
          }
        }
      }
    }
  }

  lemma {:induction false} KeepLongAllLongIsIdentity(s: seq<CpgRegion>)
    requires AllLong(s)
    ensures KeepLong(s) == s
  {
    if s != [] {
      var init := s[..|s| - 1];
      assert AllLong(init);
      KeepLongAllLongIsIdentity(init);
      assert init + [s[|s| - 1]] == s;
    }
  }

  /**
   * The merged and filtered list is ordered by start, each region has at
   * least MIN_CPG_LEN bases, and any two regions are more than MERGE_DISTANCE
   * apart.
   */
  lemma MergeAndFilterSpec(s: seq<CpgRegion>)
    ensures var r := MergeAndFilter(s);
      SortedByStart(r) && AllLong(r) && Separated(r)
  {
    if s != [] {
      var sorted := SortByStart(s);
      MergeCloseSeparated(sorted);
      KeepLongAllLong(MergeClose(sorted));
      KeepLongSeparated(MergeClose(sorted));
    }
  }

  /** Merging and filtering a second time changes nothing. */
  lemma MergeAndFilterIdempotent(s: seq<CpgRegion>)
    ensures MergeAndFilter(MergeAndFilter(s)) == MergeAndFilter(s)
  {
    var r := MergeAndFilter(s);
    MergeAndFilterSpec(s);
    if r != [] {
      SortSortedIsIdentity(r);
      assert [r[0]] + r[1..] == r;
      MergeFromSeparatedIsIdentity(r[0], r[1..]);
      KeepLongAllLongIsIdentity(r);
    }
  }

  /** The merged and filtered regions stay within any bounds that hold for all inputs. */
  lemma MergeAndFilterWithin(s: seq<CpgRegion>, lo: int, hi: int)
    requires forall i :: 0 <= i < |s| ==> lo <= s[i].start && s[i].end <= hi
    ensures forall k :: 0 <= k < |MergeAndFilter(s)| ==>
      lo <= MergeAndFilter(s)[k].start && MergeAndFilter(s)[k].end <= hi
  {
    if s != [] {
      var sorted := SortByStart(s);
      forall i | 0 <= i < |sorted|
        ensures lo <= sorted[i].start && sorted[i].end <= hi
      {
        SortKeepsElements(s, sorted[i]);
      }
      MergeFromWithin(sorted[0], sorted[1..], lo, hi);
      var m := MergeClose(sorted);
      KeepLongMembers(m);
    }
  }

  /** The merge loop: one pass over the sorted list, growing the last region kept. */
  method MergePass(sorted: seq<CpgRegion>) returns (temp: seq<CpgRegion>)
    requires sorted != []
    ensures temp == MergeClose(sorted)
  {
    temp := [sorted[0]];
    for i := 1 to |sorted|
      invariant temp != []
      invariant temp[..|temp| - 1] + MergeFrom(temp[|temp| - 1], sorted[i..]) == MergeClose(sorted)
    {
      var last := temp[|temp| - 1];
      assert sorted[i..][0] == sorted[i] && sorted[i..][1..] == sorted[i + 1..];
      if sorted[i].start - last.end <= MERGE_DISTANCE {
        ghost var before := temp;
        temp := temp[|temp| - 1 := last.(end := Max(last.end, sorted[i].end))];
        assert temp[..|temp| - 1] == before[..|before| - 1];
      } else {
        ghost var before := temp;
        temp := temp + [sorted[i]];
        assert temp[..|temp| - 1] == before;
        assert before[..|before| - 1] + [last] == before;
      }
    }
  }

  /** The length filter loop. */
  method LengthPass(temp: seq<CpgRegion>) returns (out: seq<CpgRegion>)
    ensures out == KeepLong(temp)
  {
    out := [];
    for k := 0 to |temp|
      invariant out == KeepLong(temp[..k])
    {
      assert temp[..k + 1][..k] == temp[..k];
      if Length(temp[k]) >= MIN_CPG_LEN {
        out := out + [temp[k]];
      }
    }
    assert temp[..|temp|] == temp;
  }

  method FilterLengthAndMergeCloseIslands(islands: seq<CpgRegion>) returns (out: seq<CpgRegion>)
    ensures out == MergeAndFilter(islands)
  {
    if islands == [] {
      return [];
    }
    var sorted := SortByStart(islands);
    var temp := MergePass(sorted);
    out := LengthPass(temp);
  }

  // ---------------------------------------------------------------------------
  // filter_by_content

  /** toupper in the C locale. */
  function ToUpper(c: char): char {
    if 'a' <= c <= 'z' then (c as int - 32) as char else c
  }

  /** Number of positions of s holding base b, case-insensitively. */
  function CountBase(s: string, b: char): nat {
    if s == [] then 0
    else CountBase(s[..|s| - 1], b) + (if ToUpper(s[|s| - 1]) == b then 1 else 0)
  }

  /** Number of adjacent pairs of s reading CG, case-insensitively. */
  function CountCpG(s: string): nat {
    if |s| < 2 then 0
    else CountCpG(s[..|s| - 1]) + (if ToUpper(s[|s| - 2]) == 'C' && ToUpper(s[|s| - 1]) == 'G' then 1 else 0)
  }

  /** Counts never exceed what the stretch can hold: C+G <= length, CG <= C and CG <= G. */
  lemma {:induction false} CountBounds(s: string)
    ensures CountBase(s, 'C') + CountBase(s, 'G') <= |s|
    ensures CountCpG(s) <= CountBase(s, 'C') && CountCpG(s) <= CountBase(s, 'G')
  {
    if s != [] {
      var init := s[..|s| - 1];
      CountBounds(init);
      if |s| >= 2 {
        assert init[..|init| - 1] == s[..|s| - 2];
        assert init[|init| - 1] == s[|s| - 2];
        if ToUpper(s[|s| - 2]) == 'C' && ToUpper(s[|s| - 1]) == 'G' {
          // the pair adds one CG, one G at its end, and its C was counted by init
          CountCLastPair(init);
        }
      }
    }
  }

  /** A stretch whose last base is C has one C more than its CG count allows for. */
  lemma {:induction false} CountCLastPair(s: string)
    requires |s| >= 1 && ToUpper(s[|s| - 1]) == 'C'
    ensures CountCpG(s) < CountBase(s, 'C')
  {
    var init := s[..|s| - 1];
    CountBounds(init);
    if |s| >= 2 {
      assert init[..|init| - 1] == s[..|s| - 2];
    }
  }

  /**
   * The content test on counts: (C+G)/len >= 0.44 and, with C and G both
   * present, CG*len/(C*G) >= 0.5, both compared by cross-multiplying.
   */
  predicate RichInCpG(c: int, g: int, cg: int, len: int) {
    len > 0 &&
    MIN_GC_DEN * (c + g) >= MIN_GC_NUM * len &&
    c > 0 && g > 0 &&
    MIN_OE_DEN * (cg * len) >= MIN_OE_NUM * (c * g)
  }

  /** The region clipped to [1, |sequence|], as 1-based bounds. */
  function ContentStart(r: CpgRegion): int { Max(1, r.start) }
  function ContentEnd(sequence: string, r: CpgRegion): int { Min(|sequence|, r.end) }

  predicate PassesContent(sequence: string, r: CpgRegion) {
    var start := ContentStart(r);
    var end := ContentEnd(sequence, r);
    start <= end &&
    var window := sequence[start - 1..end];
    RichInCpG(CountBase(window, 'C'), CountBase(window, 'G'), CountCpG(window), end - start + 1)
  }

  function ContentFilter(sequence: string, s: seq<CpgRegion>): (r: seq<CpgRegion>)
    ensures |r| <= |s|
  {
    if s == [] then []
    else
      var init := ContentFilter(sequence, s[..|s| - 1]);
      if PassesContent(sequence, s[|s| - 1]) then init + [s[|s| - 1]] else init
  }

  /**
   * A region with no C or no G has O/E 0 and is rejected, whatever its GC
   * fraction; so is a region that does not reach into the sequence.
   */
  lemma ContentRejects(sequence: string, r: CpgRegion)
    requires ContentEnd(sequence, r) < ContentStart(r) ||
      CountBase(sequence[ContentStart(r) - 1..ContentEnd(sequence, r)], 'C') == 0 ||
      CountBase(sequence[ContentStart(r) - 1..ContentEnd(sequence, r)], 'G') == 0
    ensures !PassesContent(sequence, r)
  {
  }

  /** The filter keeps regions unchanged: its result holds only input regions that pass. */
  lemma {:induction false} ContentFilterMembers(sequence: string, s: seq<CpgRegion>)
    ensures forall k :: 0 <= k < |ContentFilter(sequence, s)| ==>
      ContentFilter(sequence, s)[k] in s && PassesContent(sequence, ContentFilter(sequence, s)[k])
  {
    if s != [] {
      var init := s[..|s| - 1];
      ContentFilterMembers(sequence, init);
      var t := ContentFilter(sequence, init);
      var r := ContentFilter(sequence, s);
      forall k | 0 <= k < |r|
        ensures r[k] in s && PassesContent(sequence, r[k])
      {
        if k < |t| {
          assert r[k] == t[k] && t[k] in init;
        }
      }
    }
  }

  /** Conversely, every input region that passes is kept. */
  lemma {:induction false} ContentFilterKeepsPassing(sequence: string, s: seq<CpgRegion>)
    ensures forall i :: 0 <= i < |s| && PassesContent(sequence, s[i]) ==> s[i] in ContentFilter(sequence, s)
  {
    if s != [] {
      var init := s[..|s| - 1];
      ContentFilterKeepsPassing(sequence, init);
      forall i | 0 <= i < |s| && PassesContent(sequence, s[i])
        ensures s[i] in ContentFilter(sequence, s)
      {
        if i < |init| {
          assert s[i] == init[i];
        }
      }
    }
  }

  /** Filtering twice changes nothing. */
  lemma {:induction false} ContentFilterIdempotent(sequence: string, s: seq<CpgRegion>)
    ensures ContentFilter(sequence, ContentFilter(sequence, s)) == ContentFilter(sequence, s)
  {
    if s != [] {
      var init := s[..|s| - 1];
      var x := s[|s| - 1];
      ContentFilterIdempotent(sequence, init);
      var t := ContentFilter(sequence, init);
      if PassesContent(sequence, x) {
        var r := t + [x];
        assert r[..|r| - 1] == t;
      }
    }
  }

  /** Regions kept in order: spacing between input regions carries over to the result. */
  lemma {:induction false} ContentFilterSeparated(sequence: string, s: seq<CpgRegion>)
    requires Separated(s)
    ensures Separated(ContentFilter(sequence, s))
  {
    if s != [] {
      var init := s[..|s| - 1];
      var x := s[|s| - 1];
      assert Separated(init);
      ContentFilterSeparated(sequence, init);
      ContentFilterMembers(sequence, init);
      var t := ContentFilter(sequence, init);
      if PassesContent(sequence, x) {
        var r := t + [x];
        forall i, j | 0 <= i < j < |r|
          ensures r[j].start - r[i].end > MERGE_DISTANCE
        {
          if j == |t| {
            assert r[i] == t[i] && t[i] in init;
            var i' :| 0 <= i' < |init| && init[i'] == t[i];
            assert s[i'] == t[i];
          } else {
            assert r[i] == t[i] && r[j] == t[j];
          }
        }
      }
    }
  }

  /** Counts C, G and CG over sequence positions start..end (1-based, inclusive). */
  method CountContent(sequence: string, start: int, end: int) returns (countC: int, countG: int, countCG: int)
    requires 1 <= start <= end <= |sequence|
    ensures countC == CountBase(sequence[start - 1..end], 'C')
    ensures countG == CountBase(sequence[start - 1..end], 'G')
    ensures countCG == CountCpG(sequence[start - 1..end])
  {
    countC, countG, countCG := 0, 0, 0;
    var prev := '\0';
    for pos := start to end + 1
      invariant countC == CountBase(sequence[start - 1..pos - 1], 'C')
      invariant countG == CountBase(sequence[start - 1..pos - 1], 'G')
      invariant countCG == CountCpG(sequence[start - 1..pos - 1])
      invariant pos > start ==> prev == ToUpper(sequence[pos - 2])
      invariant pos == start ==> prev == '\0'
    {
      var base := ToUpper(sequence[pos - 1]);
      if base == 'C' { countC := countC + 1; }
      if base == 'G' { countG := countG + 1; }
      if prev == 'C' && base == 'G' { countCG := countCG + 1; }
      prev := base;
      ghost var w := sequence[start - 1..pos];
      assert w[..|w| - 1] == sequence[start - 1..pos - 1];
      if pos > start {
        assert w[|w| - 2] == sequence[pos - 2];
      }
    }
  }

  method FilterByContent(sequence: string, islands: seq<CpgRegion>) returns (filtered: seq<CpgRegion>)
    ensures filtered == ContentFilter(sequence, islands)
  {
    if islands == [] {
      return islands;
    }
    filtered := [];
    for i := 0 to |islands|
      invariant filtered == ContentFilter(sequence, islands[..i])
    {
      assert islands[..i + 1][..i] == islands[..i];
      var region := islands[i];
      var start := Max(1, region.start);
      var end := Min(|sequence|, region.end);
      var len := end - start + 1;
      if len <= 0 {
        continue;
      }
      var countC, countG, countCG := CountContent(sequence, start, end);
      if RichInCpG(countC, countG, countCG, len) {
        filtered := filtered + [region];
      }
    }
    assert islands[..|islands|] == islands;
  }
}
