/**
 * The window scan of the decoder: the dinucleotide sequence of length T is
 * cut into windows of WINDOW positions whose starts are STEP = WINDOW -
 * OVERLAP apart, each window is decoded on its own and the islands of all
 * windows are appended in window order.
 *
 * The posterior of a window comes from the forward-backward pass, which is
 * not modelled: it is the parameter `post`, giving the posterior of the
 * window [a, b) as b - a values.
 */
module Scan {
  import opened Regions
  import opened Postprocessing
  import opened Decode

  const WINDOW: int := 5000000
  const OVERLAP: int := 50000
  const STEP: int := WINDOW - OVERLAP

  /** A window [start, end) of dinucleotide positions. */
  datatype Window = Window(start: int, end: int)

  /** The windows the scan visits from `startD` on, as the source's loop visits them. */
  function WindowsFrom(T: int, startD: int): seq<Window>
    requires startD >= 0
    decreases T - startD
  {
    if startD >= T then []
    else
      var endD := Min(startD + WINDOW, T);
      if endD - startD < 2 then []
      else [Window(startD, endD)] + WindowsFrom(T, startD + STEP)
  }

  function Windows(T: int): seq<Window> {
    WindowsFrom(T, 0)
  }

  /** The k-th window visited from `startD` starts k steps later and is cut at T. */
  lemma {:induction false} WindowsFromShape(T: int, startD: int)
    requires startD >= 0
    ensures forall k :: 0 <= k < |WindowsFrom(T, startD)| ==>
      WindowsFrom(T, startD)[k] == Window(startD + k * STEP, Min(startD + k * STEP + WINDOW, T)) &&
      2 <= WindowsFrom(T, startD)[k].end - WindowsFrom(T, startD)[k].start &&
      WindowsFrom(T, startD)[k].end <= T
    decreases T - startD
  {
    if startD < T && Min(startD + WINDOW, T) - startD >= 2 {
      WindowsFromShape(T, startD + STEP);
      var ws := WindowsFrom(T, startD);
      forall k | 0 <= k < |ws|
        ensures ws[k] == Window(startD + k * STEP, Min(startD + k * STEP + WINDOW, T))
      {
        if k > 0 {
          assert ws[k] == WindowsFrom(T, startD + STEP)[k - 1];
          assert startD + STEP + (k - 1) * STEP == startD + k * STEP;
        }
      }
    }
  }

  /**
   * Window k starts at k * STEP, ends at the smaller of its start plus
   * WINDOW and T, and holds at least two positions; so every window lies in
   * [0, T).
   */
  lemma WindowsShape(T: int)
    ensures forall k :: 0 <= k < |Windows(T)| ==>
      Windows(T)[k] == Window(k * STEP, Min(k * STEP + WINDOW, T)) &&
      0 <= Windows(T)[k].start && Windows(T)[k].start + 2 <= Windows(T)[k].end <= T
  {
    WindowsFromShape(T, 0);
  }

  /** Position d lies in one of the windows. */
  predicate InWindow(ws: seq<Window>, d: int) {
    exists k :: 0 <= k < |ws| && ws[k].start <= d < ws[k].end
  }

  lemma {:induction false} CoverFrom(T: int, startD: int, d: int)
    requires 0 <= startD <= d < T && T - startD >= 2
    ensures InWindow(WindowsFrom(T, startD), d)
    decreases T - startD
  {
    var ws := WindowsFrom(T, startD);
    var endD := Min(startD + WINDOW, T);
    assert ws[0] == Window(startD, endD);
    if d >= endD {
      CoverFrom(T, startD + STEP, d);
      var k :| 0 <= k < |WindowsFrom(T, startD + STEP)| &&
        WindowsFrom(T, startD + STEP)[k].start <= d < WindowsFrom(T, startD + STEP)[k].end;
      assert ws[k + 1] == WindowsFrom(T, startD + STEP)[k];
    }
  }

  /** Since OVERLAP is positive, the windows together cover [0, T) whenever T >= 2. */
  lemma WindowsCover(T: int, d: int)
    requires T >= 2 && 0 <= d < T
    ensures InWindow(Windows(T), d)
  {
    CoverFrom(T, 0, d);
  }

  /**
   * Where a window does not reach T, its keep range ends exactly where the
   * next window's keep range begins: OVERLAP is even, so the two halves
   * meet.
   */
  lemma KeepRangesMeet(T: int, k: int)
    requires 0 <= k < |Windows(T)| - 1 && Windows(T)[k].end != T
    ensures KeepRight(Windows(T)[k].end, T, OVERLAP) == KeepLeft(Windows(T)[k + 1].start, OVERLAP)
  {
    WindowsShape(T);
  }

  /** Half-open keep range of window w: the positions whose islands it reports. */
  function KeepFrom(w: Window): int { KeepLeft(w.start, OVERLAP) }
  function KeepTo(w: Window, T: int): int { KeepRight(w.end, T, OVERLAP) }

  /**
   * As written, a window that reaches T can be followed by one more window
   * lying wholly inside it: for T = 5000000 the scan decodes [0, T) and then
   * [STEP, T), and the second window's keep range lies inside the first's,
   * so islands near the end of the chromosome are reported twice.
   */
  lemma TailWindowTwice()
    ensures var ws := Windows(5000000);
      |ws| == 2 && ws[0].end == 5000000 && ws[1].end == 5000000 &&
      KeepFrom(ws[0]) < KeepFrom(ws[1]) < KeepTo(ws[1], 5000000) == KeepTo(ws[0], 5000000)
  {
    var T := 5000000;
    assert WindowsFrom(T, 2 * STEP) == [];
    assert WindowsFrom(T, STEP) == [Window(STEP, T)];
    assert WindowsFrom(T, 0) == [Window(0, T), Window(STEP, T)];
  }

  /** The windows as evidently intended: the scan stops after a window that reaches T. */
  function TiledFrom(T: int, startD: int): seq<Window>
    requires startD >= 0
    decreases T - startD
  {
    if startD >= T then []
    else
      var endD := Min(startD + WINDOW, T);
      if endD - startD < 2 then []
      else [Window(startD, endD)] + (if endD == T then [] else TiledFrom(T, startD + STEP))
  }

  function Tiled(T: int): seq<Window> {
    TiledFrom(T, 0)
  }

  /** The keep ranges of consecutive windows meet, and each is non-empty. */
  predicate Tiles(ws: seq<Window>, T: int) {
    (forall k :: 0 <= k < |ws| - 1 ==> ws[k].end < T && KeepTo(ws[k], T) == KeepFrom(ws[k + 1])) &&
    (forall k :: 0 <= k < |ws| ==> KeepFrom(ws[k]) < KeepTo(ws[k], T))
  }

  /**
   * A window not reaching T is a full WINDOW long; its keep range is
   * non-empty and ends where the keep range of the window STEP later begins.
   */
  lemma TiledLink(T: int, startD: int)
    requires startD == 0 || (startD >= STEP && startD + OVERLAP < T)
    requires startD + WINDOW < T
    ensures var w := Window(startD, startD + WINDOW);
      KeepFrom(w) < KeepTo(w, T) && KeepTo(w, T) == KeepFrom(Window(startD + STEP, 0))
  {
    assert Half(OVERLAP) == 25000;
  }

  /** The keep range of a window reaching T is non-empty. */
  lemma TiledLast(T: int, startD: int)
    requires startD == 0 || (startD >= STEP && startD + OVERLAP < T)
    requires startD < T
    ensures KeepFrom(Window(startD, T)) < T
  {
    assert Half(OVERLAP) == 25000;
  }

  /** A window whose keep range is non-empty and meets the next one's extends a tiling. */
  lemma TilesCons(w: Window, rest: seq<Window>, T: int)
    requires Tiles(rest, T) && rest != []
    requires w.end < T && KeepTo(w, T) == KeepFrom(rest[0]) && KeepFrom(w) < KeepTo(w, T)
    ensures Tiles([w] + rest, T)
  {
    var ws := [w] + rest;
    forall k | 0 <= k < |ws| - 1
      ensures ws[k].end < T && KeepTo(ws[k], T) == KeepFrom(ws[k + 1])
    {
      if k > 0 {
        assert ws[k] == rest[k - 1] && ws[k + 1] == rest[k];
      }
    }
    forall k | 0 <= k < |ws|
      ensures KeepFrom(ws[k]) < KeepTo(ws[k], T)
    {
      if k > 0 {
        assert ws[k] == rest[k - 1];
      }
    }
  }

  /** The corrected windows from startD begin at startD and the last one ends at T. */
  lemma {:induction false} TiledFromEnds(T: int, startD: int)
    requires startD >= 0
    ensures var ws := TiledFrom(T, startD);
      (ws != [] ==> ws[0].start == startD && ws[|ws| - 1].end == T) && (ws == [] ==> T - startD < 2)
    decreases T - startD
  {
    if startD < T && Min(startD + WINDOW, T) - startD >= 2 {
      var w := Window(startD, Min(startD + WINDOW, T));
      if w.end != T {
        TiledFromEnds(T, startD + STEP);
        var rest := TiledFrom(T, startD + STEP);
        assert TiledFrom(T, startD) == [w] + rest;
        assert rest != [];
        assert ([w] + rest)[|rest|] == rest[|rest| - 1];
      } else {
        assert TiledFrom(T, startD) == [w];
      }
    }
  }

  /** The keep ranges of the corrected windows from startD tile their span. */
  lemma {:induction false} TiledFromSpec(T: int, startD: int)
    requires startD == 0 || (startD >= STEP && startD + OVERLAP < T)
    ensures Tiles(TiledFrom(T, startD), T)
    decreases T - startD
  {
    var ws := TiledFrom(T, startD);
    if startD < T && Min(startD + WINDOW, T) - startD >= 2 {
      var endD := Min(startD + WINDOW, T);
      var w := Window(startD, endD);
      if endD != T {
        var next := startD + STEP;
        TiledFromSpec(T, next);
        TiledFromEnds(T, next);
        TiledLink(T, startD);
        var rest := TiledFrom(T, next);
        assert ws == [w] + rest;
        TilesCons(w, rest, T);
      } else {
        TiledLast(T, startD);
        assert ws == [w];
      }
    }
  }

  /**
   * With the correction the keep ranges partition [0, T): the first starts
   * at 0, the last ends at T, consecutive ranges meet and none is empty, so
   * no dinucleotide position lies in two keep ranges. (Clipping keeps closed
   * base intervals, so an island may still reach one base past its keep
   * range and share that base with the next window's.) The corrected windows are
   * the scan's windows up to the first one reaching T.
   */
  lemma TiledPartitions(T: int)
    requires T >= 2
    ensures var ws := Tiled(T);
      ws != [] && KeepFrom(ws[0]) == 0 && KeepTo(ws[|ws| - 1], T) == T && Tiles(ws, T)
  {
    TiledFromSpec(T, 0);
    TiledFromEnds(T, 0);
  }

  lemma {:induction false} TiledIsPrefix(T: int, startD: int)
    requires startD >= 0
    ensures var ws := TiledFrom(T, startD);
      |ws| <= |WindowsFrom(T, startD)| && ws == WindowsFrom(T, startD)[..|ws|]
    decreases T - startD
  {
    if startD < T && Min(startD + WINDOW, T) - startD >= 2 {
      var w := Window(startD, Min(startD + WINDOW, T));
      var all := WindowsFrom(T, startD + STEP);
      assert WindowsFrom(T, startD) == [w] + all;
      if w.end != T {
        TiledIsPrefix(T, startD + STEP);
        var rest := TiledFrom(T, startD + STEP);
        assert ([w] + all)[..1 + |rest|] == [w] + all[..|rest|];
      } else {
        assert ([w] + all)[..1] == [w];
      }
    }
  }

  /** What process_window promises for window w. */
  predicate WindowResult(islands: seq<CpgRegion>, sequence: string, w: Window, T: int) {
    AllWithin(islands, KeepLeft(w.start, OVERLAP) + 1, KeepRight(w.end, T, OVERLAP) + 1) &&
    SortedByStart(islands) && AllLong(islands) && Separated(islands) &&
    forall k :: 0 <= k < |islands| ==> PassesContent(sequence, islands[k])
  }

  /** What every reported island keeps: it lies in [1, T + 1], is long, and passes the content test. */
  predicate Reported(sequence: string, r: CpgRegion, T: int) {
    1 <= r.start && r.end <= T + 1 && Length(r) >= MIN_CPG_LEN && PassesContent(sequence, r)
  }

  /** The islands of a window inside [0, T) are reported islands, and appending them keeps the list reported. */
  lemma WindowReported(all: seq<CpgRegion>, islands: seq<CpgRegion>, sequence: string, w: Window, T: int)
    requires 0 <= w.start && w.end <= T
    requires WindowResult(islands, sequence, w, T)
    requires forall k :: 0 <= k < |all| ==> Reported(sequence, all[k], T)
    ensures forall k :: 0 <= k < |all + islands| ==> Reported(sequence, (all + islands)[k], T)
  {
    assert 0 <= KeepLeft(w.start, OVERLAP) && KeepRight(w.end, T, OVERLAP) <= T;
    forall k | 0 <= k < |all + islands|
      ensures Reported(sequence, (all + islands)[k], T)
    {
      if k >= |all| {
        assert (all + islands)[k] == islands[k - |all|];
      }
    }
  }

  /** The lists f(w) of the windows ws, appended in window order. */
  function Gather(ws: seq<Window>, f: Window -> seq<CpgRegion>): seq<CpgRegion>
    decreases |ws|
  {
    if ws == [] then [] else Gather(ws[..|ws| - 1], f) + f(ws[|ws| - 1])
  }

  /** The islands of one window, decoded with the window's own posterior. */
  function IslandsOf(sequence: string, T: int, post: (int, int) -> seq<real>,
                     postEnter: real, postExit: real, postTrim: real): Window -> seq<CpgRegion>
  {
    (w: Window) => WindowIslands(sequence, post(w.start, w.end), w.start, w.end, T, postEnter, postExit, postTrim, OVERLAP)
  }

  /** The islands of the whole scan: those of every window of Windows(T), in window order. */
  function ScanIslands(sequence: string, T: int, post: (int, int) -> seq<real>,
                       postEnter: real, postExit: real, postTrim: real): seq<CpgRegion>
  {
    Gather(Windows(T), IslandsOf(sequence, T, post, postEnter, postExit, postTrim))
  }

  /** Gathering two runs of windows one after the other appends their lists. */
  lemma {:induction false} GatherAppend(ws1: seq<Window>, ws2: seq<Window>, f: Window -> seq<CpgRegion>)
    ensures Gather(ws1 + ws2, f) == Gather(ws1, f) + Gather(ws2, f)
    decreases |ws2|
  {
    if ws2 == [] {
      assert ws1 + ws2 == ws1;
    } else {
      var init := ws2[..|ws2| - 1];
      GatherAppend(ws1, init, f);
      assert (ws1 + ws2)[..|ws1 + ws2| - 1] == ws1 + init;
    }
  }

  /** When each window's list keeps what process_window promises, every gathered island is reported. */
  lemma {:induction false} GatherReported(ws: seq<Window>, f: Window -> seq<CpgRegion>, sequence: string, T: int)
    requires forall i :: 0 <= i < |ws| ==> 0 <= ws[i].start && ws[i].end <= T
    requires forall i :: 0 <= i < |ws| ==> WindowResult(f(ws[i]), sequence, ws[i], T)
    ensures forall k :: 0 <= k < |Gather(ws, f)| ==> Reported(sequence, Gather(ws, f)[k], T)
    decreases |ws|
  {
    if ws != [] {
      var w := ws[|ws| - 1];
      GatherReported(ws[..|ws| - 1], f, sequence, T);
      WindowReported(Gather(ws[..|ws| - 1], f), f(w), sequence, w, T);
    }
  }

  /**
   * Every island of the scan lies in [1, T + 1], is long and passes the
   * content test, whatever posterior each window gets.
   */
  lemma ScanReported(sequence: string, T: int, post: (int, int) -> seq<real>,
                     postEnter: real, postExit: real, postTrim: real)
    ensures var all := ScanIslands(sequence, T, post, postEnter, postExit, postTrim);
      forall k :: 0 <= k < |all| ==> Reported(sequence, all[k], T)
  {
    var ws := Windows(T);
    var f := IslandsOf(sequence, T, post, postEnter, postExit, postTrim);
    WindowsShape(T);
    forall i | 0 <= i < |ws|
      ensures WindowResult(f(ws[i]), sequence, ws[i], T)
    {
      var w := ws[i];
      WindowIslandsSpec(sequence, post(w.start, w.end), w.start, w.end, T, postEnter, postExit, postTrim, OVERLAP);
    }
    GatherReported(ws, f, sequence, T);
  }

  /**
   * The scan: every window of Windows(T) is decoded in turn with its own
   * posterior and its islands are appended, so the result is the islands of
   * the windows in window order.
   */
  method ScanWindows(sequence: string, T: int, post: (int, int) -> seq<real>,
                     postEnter: real, postExit: real, postTrim: real)
    returns (predictedAll: seq<CpgRegion>)
    ensures predictedAll == ScanIslands(sequence, T, post, postEnter, postExit, postTrim)
  {
    predictedAll := [];
    ghost var f := IslandsOf(sequence, T, post, postEnter, postExit, postTrim);
    ghost var k := 0;
    var startD := 0;
    while startD < T
      invariant 0 <= startD && 0 <= k <= |Windows(T)|
      invariant WindowsFrom(T, startD) == Windows(T)[k..]
      invariant predictedAll == Gather(Windows(T)[..k], f)
      decreases T - startD
    {
      var endD := Min(startD + WINDOW, T);
      var lenD := endD - startD;
      if lenD < 2 {
        break;
      }
      var islands := ProcessWindow(sequence, post(startD, endD), startD, endD, T,
                                   postEnter, postExit, postTrim, OVERLAP);
      ScanStep(T, startD, k);
      IslandsOfWindow(sequence, T, post, postEnter, postExit, postTrim, Window(startD, endD), islands);
      GatherStep(Windows(T), k, f, predictedAll, islands);
      predictedAll := predictedAll + islands;
      k := k + 1;
      startD := startD + STEP;
    }
    assert WindowsFrom(T, startD) == [];
    assert Windows(T)[..k] == Windows(T);
  }

  /** Applying IslandsOf to a window gives that window's islands. */
  lemma IslandsOfWindow(sequence: string, T: int, post: (int, int) -> seq<real>,
                        postEnter: real, postExit: real, postTrim: real, w: Window, islands: seq<CpgRegion>)
    requires islands == WindowIslands(sequence, post(w.start, w.end), w.start, w.end, T,
                                      postEnter, postExit, postTrim, OVERLAP)
    ensures islands == IslandsOf(sequence, T, post, postEnter, postExit, postTrim)(w)
  {
  }

  /** Appending the next window's islands extends the gathered prefix by one window. */
  lemma GatherStep(ws: seq<Window>, k: int, f: Window -> seq<CpgRegion>, acc: seq<CpgRegion>, islands: seq<CpgRegion>)
    requires 0 <= k < |ws| && acc == Gather(ws[..k], f) && islands == f(ws[k])
    ensures acc + islands == Gather(ws[..k + 1], f)
  {
    assert ws[..k + 1][..k] == ws[..k];
  }

  /** The window at the loop's start is the next window, and the rest follow it. */
  lemma ScanStep(T: int, startD: int, k: int)
    requires 0 <= startD < T && Min(startD + WINDOW, T) - startD >= 2 && 0 <= k <= |Windows(T)|
    requires WindowsFrom(T, startD) == Windows(T)[k..]
    ensures k < |Windows(T)| && Windows(T)[k] == Window(startD, Min(startD + WINDOW, T))
    ensures WindowsFrom(T, startD + STEP) == Windows(T)[k + 1..]
  {
    assert WindowsFrom(T, startD)[0] == Window(startD, Min(startD + WINDOW, T));
    assert WindowsFrom(T, startD)[1..] == WindowsFrom(T, startD + STEP);
  }
}
