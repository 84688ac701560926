/**
 * Construction of the training data: the dinucleotide observation list of a
 * base range, the mapping of genome coordinates to coordinates of the
 * uppercase-only sequence, and the split of a chromosome into chunks, each
 * with a per-dinucleotide mask of the states the HMM may take there.
 */
module Training {
  import opened Regions
  import opened Postprocessing

  /** Dinucleotides whose bases lie within this many bases of a known island are not clamped to background. */
  const NEG_MARGIN: int := 200
  /** Number of dinucleotides per training chunk. */
  const CHUNK_D: int := 1000000

  // ---------------------------------------------------------------------------
  // seq_to_dinuc

  /** The range start..end is either too short to read or lies within s. */
  predicate DinucRange(s: string, start: int, end: int) {
    end - start + 1 < 2 || (1 <= start && end <= |s|)
  }

  /** Code of the dinucleotide at 0-based positions i, i+1. */
  function PairCode(s: string, i: int): int
    requires 0 <= i < |s| - 1
  {
    DiIndex(s[i], s[i + 1])
  }

  /**
   * The observations of base range start..end (1-based): the code of every
   * pair (pos-1, pos) for pos = start+1 .. end, in order, without the pairs
   * that are not two of A, C, G, T.
   */
  function Dinuc(s: string, start: int, end: int): seq<int>
    requires DinucRange(s, start, end)
    decreases end - start
  {
    if end - start + 1 < 2 then []
    else
      var x := PairCode(s, end - 2);
      Dinuc(s, start, end - 1) + (if x == -1 then [] else [x])
  }

  /** Every pair of the range is a pair of A, C, G, T. */
  predicate AllPairsValid(s: string, start: int, end: int)
    requires DinucRange(s, start, end)
  {
    end - start + 1 < 2 || forall i :: start - 1 <= i < end - 1 ==> PairCode(s, i) != -1
  }

  method SeqToDinuc(s: string, start: int, end: int) returns (O: seq<int>)
    requires DinucRange(s, start, end)
    ensures O == Dinuc(s, start, end)
  {
    O := [];
    var L := end - start + 1;
    if L < 2 {
      return;
    }
    for pos := start + 1 to end + 1
      invariant O == Dinuc(s, start, pos - 1)
    {
      var x := DiIndex(s[pos - 2], s[pos - 1]);
      if x != -1 {
        O := O + [x];
      }
    }
  }

  /**
   * The observation list has at most end-start entries, each in [0, NSYM);
   * it is empty for a range of fewer than two bases, and it has exactly
   * end-start entries precisely when every pair of the range is valid.
   */
  lemma DinucSpec(s: string, start: int, end: int)
    requires DinucRange(s, start, end)
    ensures end - start + 1 < 2 ==> Dinuc(s, start, end) == []
    ensures end - start + 1 >= 2 ==> |Dinuc(s, start, end)| <= end - start
    ensures forall k :: 0 <= k < |Dinuc(s, start, end)| ==> 0 <= Dinuc(s, start, end)[k] < NSYM
    ensures end - start + 1 >= 2 ==> (|Dinuc(s, start, end)| == end - start <==> AllPairsValid(s, start, end))
  {
    DinucCodes(s, start, end);
    DinucKnown(s, start, end);
    KnownLength(PairCodes(s, start, end));
    PairCodesAt(s, start, end);
    if end - start + 1 >= 2 {
      if AllPairsValid(s, start, end) {
        DinucFull(s, start, end);
      } else {
        var i :| start - 1 <= i < end - 1 && PairCode(s, i) == -1;
        DinucShort(s, start, end, i);
      }
    }
  }

  /** When every pair is valid, each pair yields one code. */
  lemma DinucFull(s: string, start: int, end: int)
    requires DinucRange(s, start, end)
    requires end - start + 1 >= 2 && AllPairsValid(s, start, end)
    ensures |Dinuc(s, start, end)| == end - start
  {
    DinucKnown(s, start, end);
    PairCodesAt(s, start, end);
    var c := PairCodes(s, start, end);
    forall k | 0 <= k < |c|
      ensures c[k] != -1
    {
      assert c[k] == PairCode(s, start - 1 + k);
    }
    KnownFull(c);
  }

  /** An invalid pair at i drops a code, so fewer than end-start remain. */
  lemma DinucShort(s: string, start: int, end: int, i: int)
    requires DinucRange(s, start, end)
    requires start - 1 <= i < end - 1 && PairCode(s, i) == -1
    ensures |Dinuc(s, start, end)| < end - start
  {
    DinucKnown(s, start, end);
    PairCodeAt(s, start, end, i);
    KnownShort(PairCodes(s, start, end), i - start + 1);
  }

  /** The code of the pair at i sits at index i-start+1 of the list of pair codes. */
  lemma PairCodeAt(s: string, start: int, end: int, i: int)
    requires DinucRange(s, start, end)
    requires start - 1 <= i < end - 1
    ensures |PairCodes(s, start, end)| == end - start
    ensures PairCodes(s, start, end)[i - start + 1] == PairCode(s, i)
  {
    PairCodesAt(s, start, end);
    var k := i - start + 1;
    assert start - 1 + k == i;
  }

  /** The codes of every pair of the range, invalid ones (-1) included. */
  function PairCodes(s: string, start: int, end: int): seq<int>
    requires DinucRange(s, start, end)
    decreases end - start
  {
    if end - start + 1 < 2 then [] else PairCodes(s, start, end - 1) + [PairCode(s, end - 2)]
  }

  /** The entries of c other than -1, in order. */
  function Known(c: seq<int>): seq<int>
    decreases |c|
  {
    if |c| == 0 then [] else Known(c[..|c| - 1]) + (if c[|c| - 1] == -1 then [] else [c[|c| - 1]])
  }

  /** The observation list is the list of all pair codes with the invalid ones dropped. */
  lemma {:induction false} DinucKnown(s: string, start: int, end: int)
    requires DinucRange(s, start, end)
    ensures Dinuc(s, start, end) == Known(PairCodes(s, start, end))
    decreases end - start
  {
    if end - start + 1 >= 2 {
      DinucKnown(s, start, end - 1);
      var c := PairCodes(s, start, end);
      assert c[..|c| - 1] == PairCodes(s, start, end - 1);
    }
  }

  /** One code per pair: entry k is the code of the pair at start-1+k. */
  lemma {:induction false} PairCodesAt(s: string, start: int, end: int)
    requires DinucRange(s, start, end)
    ensures |PairCodes(s, start, end)| == if end - start + 1 < 2 then 0 else end - start
    ensures forall k :: 0 <= k < |PairCodes(s, start, end)| ==> PairCodes(s, start, end)[k] == PairCode(s, start - 1 + k)
    decreases end - start
  {
    if end - start + 1 >= 2 {
      PairCodesAt(s, start, end - 1);
      var c := PairCodes(s, start, end);
      var init := PairCodes(s, start, end - 1);
      forall k | 0 <= k < |c|
        ensures c[k] == PairCode(s, start - 1 + k)
      {
        if k < |init| {
          assert c[k] == init[k];
        }
      }
    }
  }

  /** Dropping entries never lengthens the list. */
  lemma {:induction false} KnownLength(c: seq<int>)
    ensures |Known(c)| <= |c|
    decreases |c|
  {
    if |c| > 0 {
      KnownLength(c[..|c| - 1]);
    }
  }

  /** With no -1 entry nothing is dropped. */
  lemma {:induction false} KnownFull(c: seq<int>)
    requires forall k :: 0 <= k < |c| ==> c[k] != -1
    ensures Known(c) == c
    decreases |c|
  {
    if |c| > 0 {
      var init := c[..|c| - 1];
      KnownFull(init);
      assert init + [c[|c| - 1]] == c;
    }
  }

  /** A -1 entry is dropped, so the result is shorter than c. */
  lemma {:induction false} KnownShort(c: seq<int>, k: int)
    requires 0 <= k < |c| && c[k] == -1
    ensures |Known(c)| < |c|
    decreases |c|
  {
    var init := c[..|c| - 1];
    if k == |c| - 1 {
      KnownLength(init);
    } else {
      assert init[k] == -1;
      KnownShort(init, k);
    }
  }

  /** Every code lies in [0, NSYM). */
  lemma {:induction false} DinucCodes(s: string, start: int, end: int)
    requires DinucRange(s, start, end)
    ensures forall k :: 0 <= k < |Dinuc(s, start, end)| ==> 0 <= Dinuc(s, start, end)[k] < NSYM
    decreases end - start
  {
    if end - start + 1 >= 2 {
      DinucCodes(s, start, end - 1);
      var init := Dinuc(s, start, end - 1);
      var x := PairCode(s, end - 2);
      var tail := if x == -1 then [] else [x];
      var o := Dinuc(s, start, end);
      assert o == init + tail;
      forall k | 0 <= k < |o|
        ensures 0 <= o[k] < NSYM
      {
        if k < |init| {
          assert o[k] == init[k];
        } else {
          assert o[k] == x;
        }
      }
    }
  }

  // ---------------------------------------------------------------------------
  // map_to_comp

  /** Number of positions of r strictly before origPos. */
  function Before(r: LowerCaseRegion, origPos: int): int {
    var e := Min(r.end, origPos - 1);
    if e >= r.start then e - r.start + 1 else 0
  }

  /**
   * Lowercase positions removed in front of origPos, counted as the source
   * walks the regions: it stops at the first region starting at or after
   * origPos.
   */
  function Removed(lc: seq<LowerCaseRegion>, origPos: int): int
    decreases |lc|
  {
    if lc == [] || lc[0].start >= origPos then 0
    else Before(lc[0], origPos) + Removed(lc[1..], origPos)
  }

  /** Reference count without the early stop: positions of every region before origPos. */
  function RemovedAll(lc: seq<LowerCaseRegion>, origPos: int): int
    decreases |lc|
  {
    if lc == [] then 0 else Before(lc[0], origPos) + RemovedAll(lc[1..], origPos)
  }

  predicate LcSorted(lc: seq<LowerCaseRegion>) {
    forall i, j :: 0 <= i < j < |lc| ==> lc[i].start <= lc[j].start
  }

  method MapToComp(lc: seq<LowerCaseRegion>, origPos: int) returns (c: int)
    ensures c == origPos - Removed(lc, origPos)
  {
    var removed := 0;
    var j := 0;
    while j < |lc|
      invariant 0 <= j <= |lc|
      invariant removed + Removed(lc[j..], origPos) == Removed(lc, origPos)
    {
      var r := lc[j];
      if r.start >= origPos {
        break;
      }
      var end := Min(r.end, origPos - 1);
      if end >= r.start {
        removed := removed + (end - r.start + 1);
      }
      assert lc[j..][1..] == lc[j + 1..];
      j := j + 1;
    }
    c := origPos - removed;
  }

  /** Nothing is removed, so the mapped position never exceeds the original one. */
  lemma {:induction false} RemovedNonNegative(lc: seq<LowerCaseRegion>, origPos: int)
    ensures Removed(lc, origPos) >= 0
    ensures origPos - Removed(lc, origPos) <= origPos
    decreases |lc|
  {
    if !(lc == [] || lc[0].start >= origPos) {
      RemovedNonNegative(lc[1..], origPos);
    }
  }

  /** A position at or before the first lowercase region maps to itself. */
  lemma RemovedBeforeFirst(lc: seq<LowerCaseRegion>, origPos: int)
    requires lc == [] || origPos <= lc[0].start
    ensures origPos - Removed(lc, origPos) == origPos
  {
  }

  /**
   * For regions sorted by start, stopping early loses nothing: the count is
   * the number of positions of all regions lying before origPos.
   */
  lemma {:induction false} RemovedIsRemovedAll(lc: seq<LowerCaseRegion>, origPos: int)
    requires LcSorted(lc)
    ensures Removed(lc, origPos) == RemovedAll(lc, origPos)
    decreases |lc|
  {
    if lc != [] {
      assert LcSorted(lc[1..]);
      if lc[0].start >= origPos {
        RemovedAllAfter(lc, origPos);
      } else {
        RemovedIsRemovedAll(lc[1..], origPos);
      }
    }
  }

  /** Regions all starting at or after origPos contribute nothing. */
  lemma {:induction false} RemovedAllAfter(lc: seq<LowerCaseRegion>, origPos: int)
    requires forall k :: 0 <= k < |lc| ==> lc[k].start >= origPos
    ensures RemovedAll(lc, origPos) == 0
    decreases |lc|
  {
    if lc != [] {
      RemovedAllAfter(lc[1..], origPos);
    }
  }

  /**
   * Round trip with the lowercase shift of the post-processing: re-inserting
   * the lowercase regions in front of an uppercase-only position c (as
   * `OffsetFrom` does) and then removing them again (as `Removed` does) gives
   * back c, for any list of well-formed regions.
   */
  lemma {:induction false} ShiftThenCompress(lc: seq<LowerCaseRegion>, c: int, offset: int)
    requires WellFormed(lc)
    ensures Removed(lc, c + OffsetFrom(lc, c, offset)) == OffsetFrom(lc, c, offset) - offset
    decreases |lc|
  {
    var p := c + OffsetFrom(lc, c, offset);
    if lc != [] && lc[0].start <= c + offset {
      var next := offset + (lc[0].end - lc[0].start + 1);
      assert WellFormed(lc[1..]);
      OffsetFromAtLeast(lc[1..], c, next);
      ShiftThenCompress(lc[1..], c, next);
      assert Before(lc[0], p) == lc[0].end - lc[0].start + 1;
    }
  }

  /** The original position of a shifted prediction start maps back to the predicted start. */
  lemma ShiftRoundTrip(lc: seq<LowerCaseRegion>, r: CpgRegion)
    requires WellFormed(lc)
    ensures Shift(r, lc).start - Removed(lc, Shift(r, lc).start) == r.start
  {
    ShiftThenCompress(lc, r.start, 0);
  }

  // ---------------------------------------------------------------------------
  // map_orig_coords_to_compressed

  /** One region in compressed coordinates, clamped to [1, n]; None when nothing is left. */
  function CompOne(n: int, lc: seq<LowerCaseRegion>, r: CpgRegion): Option<CpgRegion> {
    var cs := Max(1, r.start - Removed(lc, r.start));
    var ce := Min(n, r.end - Removed(lc, r.end));
    if cs <= ce then Some(CpgRegion(cs, ce, r.chromosome)) else None
  }

  function CompAll(n: int, lc: seq<LowerCaseRegion>, s: seq<CpgRegion>): (r: seq<CpgRegion>)
    ensures |r| <= |s|
  {
    if s == [] then []
    else
      var init := CompAll(n, lc, s[..|s| - 1]);
      match CompOne(n, lc, s[|s| - 1])
      case Some(c) => init + [c]
      case None => init
  }

  method MapOrigCoordsToCompressed(sequence: string, lc: seq<LowerCaseRegion>, origCoords: seq<CpgRegion>)
    returns (compCoords: seq<CpgRegion>)
    ensures compCoords == CompAll(|sequence|, lc, origCoords)
  {
    compCoords := [];
    for i := 0 to |origCoords|
      invariant compCoords == CompAll(|sequence|, lc, origCoords[..i])
    {
      var r := origCoords[i];
      var cStart := MapToComp(lc, r.start);
      var cEnd := MapToComp(lc, r.end);
      if cStart < 1 {
        cStart := 1;
      }
      if cEnd > |sequence| {
        cEnd := |sequence|;
      }
      if cStart <= cEnd {
        compCoords := compCoords + [CpgRegion(cStart, cEnd, r.chromosome)];
      }
      assert origCoords[..i + 1][..i] == origCoords[..i];
    }
    assert origCoords[..|origCoords|] == origCoords;
  }

  /**
   * Every compressed region satisfies 1 <= start <= end <= n and is the
   * image of an input region, whose chromosome it keeps.
   */
  lemma {:induction false} CompAllSpec(n: int, lc: seq<LowerCaseRegion>, s: seq<CpgRegion>)
    ensures forall k :: 0 <= k < |CompAll(n, lc, s)| ==>
      var c := CompAll(n, lc, s)[k];
      1 <= c.start <= c.end <= n &&
      exists j :: 0 <= j < |s| && CompOne(n, lc, s[j]) == Some(c) && s[j].chromosome == c.chromosome
  {
    if s != [] {
      var init := s[..|s| - 1];
      CompAllSpec(n, lc, init);
      forall k | 0 <= k < |CompAll(n, lc, s)|
        ensures var c := CompAll(n, lc, s)[k];
          1 <= c.start <= c.end <= n &&
          exists j :: 0 <= j < |s| && CompOne(n, lc, s[j]) == Some(c) && s[j].chromosome == c.chromosome
      {
        var c := CompAll(n, lc, s)[k];
        if k < |CompAll(n, lc, init)| {
          assert c == CompAll(n, lc, init)[k];
          var j :| 0 <= j < |init| && CompOne(n, lc, init[j]) == Some(c) && init[j].chromosome == c.chromosome;
          assert s[j] == init[j];
        } else {
          assert CompOne(n, lc, s[|s| - 1]) == Some(c);
        }
      }
    }
  }

  // ---------------------------------------------------------------------------
  // build_masked_sequences

  /** States allowed for one dinucleotide: only CpG {0,1}, only background {1,0}, or either {1,1}. */
  datatype Allowed = CpgOnly | BackgroundOnly | Either

  /** One training chunk: its observations and the mask of allowed states. */
  datatype Chunk = Chunk(obs: seq<int>, mask: seq<Allowed>)

  /** Base pos lies within `margin` of r, clipped to the bases 1..n. */
  predicate NearRegion(r: CpgRegion, pos: int, margin: int, n: int) {
    Max(1, r.start - margin) <= pos <= Min(n, r.end + margin)
  }

  /** Base pos lies within `margin` of some known region. */
  predicate Marked(coords: seq<CpgRegion>, pos: int, margin: int, n: int) {
    exists k :: 0 <= k < |coords| && NearRegion(coords[k], pos, margin, n)
  }

  /**
   * The mask of dinucleotide d (bases d+1 and d+2): CpG only if either base
   * is inside a known region, background only if neither base is within
   * NEG_MARGIN of one, either state otherwise.
   */
  function MaskAt(n: int, coords: seq<CpgRegion>, d: int): Allowed {
    if Marked(coords, d + 1, 0, n) || Marked(coords, d + 2, 0, n) then CpgOnly
    else if !Marked(coords, d + 1, NEG_MARGIN, n) && !Marked(coords, d + 2, NEG_MARGIN, n) then BackgroundOnly
    else Either
  }

  /** Masks of dinucleotides startD .. endD-1. */
  function MaskRange(n: int, coords: seq<CpgRegion>, startD: int, endD: int): (r: seq<Allowed>)
    ensures |r| == Max(0, endD - startD)
    decreases endD - startD
  {
    if endD <= startD then [] else MaskRange(n, coords, startD, endD - 1) + [MaskAt(n, coords, endD - 1)]
  }

  /**
   * The chunk starting at dinucleotide startD, or None when its observation
   * list has fewer than two entries or not one entry per mask slot.
   */
  function ChunkFrom(s: string, coords: seq<CpgRegion>, startD: int): Option<Chunk>
    requires 0 <= startD < |s| - 1
  {
    var endD := Min(startD + CHUNK_D, |s| - 1);
    var O := Dinuc(s, startD + 1, endD + 1);
    if |O| < 2 then None
    else
      var mask := MaskRange(|s|, coords, startD, endD);
      if |mask| == |O| then Some(Chunk(O, mask)) else None
  }

  /** The chunks from dinucleotide startD on, as the source appends them. */
  function ChunksFrom(s: string, coords: seq<CpgRegion>, startD: int): seq<Chunk>
    requires startD >= 0
    decreases |s| - 1 - startD
  {
    if startD >= |s| - 1 then []
    else
      var rest := ChunksFrom(s, coords, startD + CHUNK_D);
      match ChunkFrom(s, coords, startD)
      case Some(c) => [c] + rest
      case None => rest
  }

  /**
   * Chunk c is the one starting at dinucleotide b: it spans the dinucleotides
   * b .. Min(b + CHUNK_D, |s| - 1) - 1, at least two of them, every pair
   * there is valid, and its mask is the mask of that span.
   */
  predicate ChunkAt(s: string, coords: seq<CpgRegion>, c: Chunk, b: int) {
    0 <= b < |s| - 1 &&
    var endD := Min(b + CHUNK_D, |s| - 1);
    AllPairsValid(s, b + 1, endD + 1) &&
    c.obs == Dinuc(s, b + 1, endD + 1) && |c.obs| >= 2 &&
    c.mask == MaskRange(|s|, coords, b, endD)
  }

  /** The m-th chunk start after startD. */
  function ChunkStart(startD: int, m: int): int {
    startD + m * CHUNK_D
  }

  lemma ChunkStartNext(startD: int, m: int)
    ensures ChunkStart(startD + CHUNK_D, m) == ChunkStart(startD, m + 1)
    ensures ChunkStart(startD, 0) == startD
  {
  }

  /** Chunk c starts at startD plus a multiple of CHUNK_D. */
  ghost predicate AlignedChunk(s: string, coords: seq<CpgRegion>, c: Chunk, startD: int) {
    exists m :: 0 <= m && ChunkAt(s, coords, c, ChunkStart(startD, m))
  }

  /**
   * A chunk has one mask entry per observation, between two and CHUNK_D of
   * them, each observation in [0, NSYM).
   */
  lemma ChunkAtShape(s: string, coords: seq<CpgRegion>, c: Chunk, b: int)
    requires ChunkAt(s, coords, c, b)
    ensures |c.obs| == |c.mask| && 2 <= |c.obs| <= CHUNK_D
    ensures forall m :: 0 <= m < |c.obs| ==> 0 <= c.obs[m] < NSYM
  {
    var endD := Min(b + CHUNK_D, |s| - 1);
    DinucSpec(s, b + 1, endD + 1);
  }

  /** A chunk that is produced is the chunk of its span, and that span has no invalid pair. */
  lemma ChunkFromSpec(s: string, coords: seq<CpgRegion>, startD: int)
    requires 0 <= startD < |s| - 1
    ensures ChunkFrom(s, coords, startD).Some? ==> ChunkAt(s, coords, ChunkFrom(s, coords, startD).value, startD)
  {
    var endD := Min(startD + CHUNK_D, |s| - 1);
    DinucSpec(s, startD + 1, endD + 1);
  }

  /**
   * Every chunk produced from startD on is aligned: it is the chunk of the
   * span starting at startD plus a multiple of CHUNK_D, and that span has no
   * invalid pair (a span with one yields no chunk).
   */
  lemma {:induction false} ChunksSpec(s: string, coords: seq<CpgRegion>, startD: int)
    requires startD >= 0
    ensures forall k :: 0 <= k < |ChunksFrom(s, coords, startD)| ==>
      AlignedChunk(s, coords, ChunksFrom(s, coords, startD)[k], startD)
    decreases |s| - 1 - startD
  {
    if startD < |s| - 1 {
      var rest := ChunksFrom(s, coords, startD + CHUNK_D);
      ChunksSpec(s, coords, startD + CHUNK_D);
      AlignedShift(s, coords, rest, startD);
      match ChunkFrom(s, coords, startD)
      case None =>
      case Some(c) =>
        ChunkFromSpec(s, coords, startD);
        AlignedCons(s, coords, c, rest, startD);
    }
  }

  /** A chunk aligned to the next chunk start is aligned to this one. */
  lemma AlignedShift(s: string, coords: seq<CpgRegion>, rest: seq<Chunk>, startD: int)
    requires forall k :: 0 <= k < |rest| ==> AlignedChunk(s, coords, rest[k], startD + CHUNK_D)
    ensures forall k :: 0 <= k < |rest| ==> AlignedChunk(s, coords, rest[k], startD)
  {
    forall k | 0 <= k < |rest|
      ensures AlignedChunk(s, coords, rest[k], startD)
    {
      var m :| 0 <= m && ChunkAt(s, coords, rest[k], ChunkStart(startD + CHUNK_D, m));
      ChunkStartNext(startD, m);
    }
  }

  /** The chunk at startD followed by aligned chunks is an aligned list. */
  lemma AlignedCons(s: string, coords: seq<CpgRegion>, c: Chunk, rest: seq<Chunk>, startD: int)
    requires ChunkAt(s, coords, c, startD)
    requires forall k :: 0 <= k < |rest| ==> AlignedChunk(s, coords, rest[k], startD)
    ensures forall k :: 0 <= k < |[c] + rest| ==> AlignedChunk(s, coords, ([c] + rest)[k], startD)
  {
    ChunkStartNext(startD, 0);
    assert ChunkAt(s, coords, c, ChunkStart(startD, 0));
    var r := [c] + rest;
    forall k | 0 <= k < |r|
      ensures AlignedChunk(s, coords, r[k], startD)
    {
      if k > 0 {
        assert r[k] == rest[k - 1];
      }
    }
  }

  /** The observation lists of the chunks, in order. */
  function ObsOf(cs: seq<Chunk>): (r: seq<seq<int>>)
    ensures |r| == |cs|
  {
    seq(|cs|, k requires 0 <= k < |cs| => cs[k].obs)
  }

  /** The masks of the chunks, in order. */
  function MasksOf(cs: seq<Chunk>): (r: seq<seq<Allowed>>)
    ensures |r| == |cs|
  {
    seq(|cs|, k requires 0 <= k < |cs| => cs[k].mask)
  }

  /** Adding marks of one more region: a base is marked when it was, or when it is near the new region. */
  lemma MarkedAppend(coords: seq<CpgRegion>, i: int, pos: int, margin: int, n: int)
    requires 0 <= i < |coords|
    ensures Marked(coords[..i + 1], pos, margin, n) <==>
      Marked(coords[..i], pos, margin, n) || NearRegion(coords[i], pos, margin, n)
  {
    if Marked(coords[..i + 1], pos, margin, n) {
      var k :| 0 <= k < i + 1 && NearRegion(coords[..i + 1][k], pos, margin, n);
      if k < i {
        assert coords[..i][k] == coords[..i + 1][k];
      }
    }
    if Marked(coords[..i], pos, margin, n) {
      var k :| 0 <= k < i && NearRegion(coords[..i][k], pos, margin, n);
      assert coords[..i + 1][k] == coords[..i][k];
    }
    if NearRegion(coords[i], pos, margin, n) {
      assert coords[..i + 1][i] == coords[i];
    }
  }

  /** Sets flag[pos] for every pos in [a, b]; other entries are unchanged. */
  method MarkRange(flag: array<bool>, a: int, b: int)
    requires 1 <= a && b < flag.Length
    modifies flag
    ensures forall q :: 0 <= q < flag.Length ==> flag[q] == (old(flag[q]) || a <= q <= b)
  {
    var pos := a;
    while pos <= b
      invariant a <= pos && (a <= b + 1 ==> pos <= b + 1) && (a > b ==> pos == a)
      invariant forall q :: 0 <= q < flag.Length ==> flag[q] == (old(flag[q]) || a <= q < pos)
      decreases b - pos
    {
      flag[pos] := true;
      pos := pos + 1;
    }
  }

  /**
   * The per-base flags: baseIsCpg[q] when base q is inside a known region,
   * baseNearCpg[q] when it is within NEG_MARGIN of one (bases 1..n; entry 0
   * is unused).
   */
  method MarkKnownRegions(n: nat, coords: seq<CpgRegion>) returns (baseIsCpg: array<bool>, baseNearCpg: array<bool>)
    ensures fresh(baseIsCpg) && fresh(baseNearCpg)
    ensures baseIsCpg.Length == n + 1 && baseNearCpg.Length == n + 1
    ensures forall q :: 1 <= q <= n ==> baseIsCpg[q] == Marked(coords, q, 0, n)
    ensures forall q :: 1 <= q <= n ==> baseNearCpg[q] == Marked(coords, q, NEG_MARGIN, n)
  {
    baseIsCpg := new bool[n + 1](_ => false);
    baseNearCpg := new bool[n + 1](_ => false);
    for i := 0 to |coords|
      invariant forall q :: 1 <= q <= n ==> baseIsCpg[q] == Marked(coords[..i], q, 0, n)
      invariant forall q :: 1 <= q <= n ==> baseNearCpg[q] == Marked(coords[..i], q, NEG_MARGIN, n)
    {
      MarkRegion(baseIsCpg, n, coords, i, 0);
      MarkRegion(baseNearCpg, n, coords, i, NEG_MARGIN);
    }
    assert coords[..|coords|] == coords;
  }

  /** Marks the bases of region i, widened by margin, on top of the marks of the regions before it. */
  method MarkRegion(flag: array<bool>, n: nat, coords: seq<CpgRegion>, i: int, margin: int)
    requires flag.Length == n + 1 && 0 <= i < |coords| && margin >= 0
    requires forall q :: 1 <= q <= n ==> flag[q] == Marked(coords[..i], q, margin, n)
    modifies flag
    ensures forall q :: 1 <= q <= n ==> flag[q] == Marked(coords[..i + 1], q, margin, n)
  {
    var r := coords[i];
    MarkRange(flag, Max(1, r.start - margin), Min(n, r.end + margin));
    forall q | 1 <= q <= n
      ensures flag[q] == Marked(coords[..i + 1], q, margin, n)
    {
      MarkedAppend(coords, i, q, margin, n);
    }
  }

  /** The mask loop of one chunk, reading the per-base flags. */
  method ChunkMask(n: nat, coords: seq<CpgRegion>, baseIsCpg: array<bool>, baseNearCpg: array<bool>,
                   startD: int, endD: int) returns (mask: seq<Allowed>)
    requires baseIsCpg.Length == n + 1 && baseNearCpg.Length == n + 1
    requires forall q :: 1 <= q <= n ==> baseIsCpg[q] == Marked(coords, q, 0, n)
    requires forall q :: 1 <= q <= n ==> baseNearCpg[q] == Marked(coords, q, NEG_MARGIN, n)
    requires 0 <= startD <= endD <= n - 1
    ensures mask == MaskRange(n, coords, startD, endD)
  {
    mask := [];
    var d := startD;
    while d < endD
      invariant startD <= d <= endD
      invariant mask == MaskRange(n, coords, startD, d)
    {
      var b1 := d + 1;
      var b2 := d + 2;
      if b2 > n {
        break;
      }
      var entry :=
        if baseIsCpg[b1] || baseIsCpg[b2] then CpgOnly
        else if !baseNearCpg[b1] && !baseNearCpg[b2] then BackgroundOnly
        else Either;
      mask := mask + [entry];
      d := d + 1;
    }
  }

  /** Appending one chunk appends its observations and its mask. */
  lemma OfAppend(acc: seq<Chunk>, c: Chunk)
    ensures ObsOf(acc + [c]) == ObsOf(acc) + [c.obs]
    ensures MasksOf(acc + [c]) == MasksOf(acc) + [c.mask]
  {
  }

  /** One step of the chunk loop appends the kept chunk's codes and mask to the outputs. */
  lemma OutputsStep(sequences: seq<seq<int>>, masks: seq<seq<Allowed>>, acc: seq<Chunk>, chunk: Option<Chunk>)
    ensures sequences + ObsOf(AppendChunk(acc, chunk)) ==
      (if chunk.Some? then (sequences + ObsOf(acc)) + [chunk.value.obs] else sequences + ObsOf(acc))
    ensures masks + MasksOf(AppendChunk(acc, chunk)) ==
      (if chunk.Some? then (masks + MasksOf(acc)) + [chunk.value.mask] else masks + MasksOf(acc))
  {
    if chunk.Some? {
      OfAppend(acc, chunk.value);
      assert (sequences + ObsOf(acc)) + [chunk.value.obs] == sequences + (ObsOf(acc) + [chunk.value.obs]);
      assert (masks + MasksOf(acc)) + [chunk.value.mask] == masks + (MasksOf(acc) + [chunk.value.mask]);
    }
  }

  /** The chunk list after one more step of the chunk loop. */
  function AppendChunk(acc: seq<Chunk>, chunk: Option<Chunk>): seq<Chunk> {
    match chunk
    case Some(c) => acc + [c]
    case None => acc
  }

  /** One step of the chunk loop keeps `acc` followed by the remaining chunks equal to all chunks. */
  lemma ChunksStep(s: string, coords: seq<CpgRegion>, startD: int, acc: seq<Chunk>, all: seq<Chunk>)
    requires 0 <= startD < |s| - 1
    requires acc + ChunksFrom(s, coords, startD) == all
    ensures AppendChunk(acc, ChunkFrom(s, coords, startD)) + ChunksFrom(s, coords, startD + CHUNK_D) == all
  {
    match ChunkFrom(s, coords, startD)
    case Some(c) =>
      assert acc + ([c] + ChunksFrom(s, coords, startD + CHUNK_D)) == (acc + [c]) + ChunksFrom(s, coords, startD + CHUNK_D);
    case None =>
  }

  /** One step of the chunk loop: the chunk starting at dinucleotide startD, if it is kept. */
  method BuildChunk(s: string, coordsChr: seq<CpgRegion>, baseIsCpg: array<bool>, baseNearCpg: array<bool>,
                    startD: int) returns (chunk: Option<Chunk>)
    requires 0 <= startD < |s| - 1
    requires baseIsCpg.Length == |s| + 1 && baseNearCpg.Length == |s| + 1
    requires forall q :: 1 <= q <= |s| ==> baseIsCpg[q] == Marked(coordsChr, q, 0, |s|)
    requires forall q :: 1 <= q <= |s| ==> baseNearCpg[q] == Marked(coordsChr, q, NEG_MARGIN, |s|)
    ensures chunk == ChunkFrom(s, coordsChr, startD)
  {
    var endD := Min(startD + CHUNK_D, |s| - 1);
    var startBp := startD + 1;
    var endBp := endD + 1;
    var O := SeqToDinuc(s, startBp, endBp);
    if |O| < 2 {
      return None;
    }
    var mask := ChunkMask(|s|, coordsChr, baseIsCpg, baseNearCpg, startD, endD);
    if |mask| == |O| {
      chunk := Some(Chunk(O, mask));
    } else {
      chunk := None;
    }
  }

  /**
   * The chunks before startD have been gathered in acc, and the outputs hold
   * the inputs followed by their observations and masks.
   */
  ghost predicate Collected(s: string, coords: seq<CpgRegion>, startD: int, all: seq<Chunk>, acc: seq<Chunk>,
                            sequences: seq<seq<int>>, masks: seq<seq<Allowed>>,
                            seqsOut: seq<seq<int>>, masksOut: seq<seq<Allowed>>)
  {
    startD >= 0 && acc + ChunksFrom(s, coords, startD) == all &&
    seqsOut == sequences + ObsOf(acc) && masksOut == masks + MasksOf(acc)
  }

  /** The per-base flags hold what MarkKnownRegions computed for the regions. */
  predicate Flags(n: nat, coords: seq<CpgRegion>, baseIsCpg: array<bool>, baseNearCpg: array<bool>)
    reads baseIsCpg, baseNearCpg
  {
    baseIsCpg.Length == n + 1 && baseNearCpg.Length == n + 1 &&
    (forall q :: 1 <= q <= n ==> baseIsCpg[q] == Marked(coords, q, 0, n)) &&
    (forall q :: 1 <= q <= n ==> baseNearCpg[q] == Marked(coords, q, NEG_MARGIN, n))
  }

  /** One round of the chunk loop: the chunk at startD, if kept, is appended to both outputs. */
  method ChunkRound(s: string, coordsChr: seq<CpgRegion>, baseIsCpg: array<bool>, baseNearCpg: array<bool>,
                    startD: int, ghost all: seq<Chunk>, ghost sequences: seq<seq<int>>, ghost masks: seq<seq<Allowed>>,
                    ghost acc: seq<Chunk>, seqsOut: seq<seq<int>>, masksOut: seq<seq<Allowed>>)
    returns (seqsOut': seq<seq<int>>, masksOut': seq<seq<Allowed>>, ghost acc': seq<Chunk>)
    requires 0 <= startD < |s| - 1
    requires Flags(|s|, coordsChr, baseIsCpg, baseNearCpg)
    requires Collected(s, coordsChr, startD, all, acc, sequences, masks, seqsOut, masksOut)
    ensures Collected(s, coordsChr, startD + CHUNK_D, all, acc', sequences, masks, seqsOut', masksOut')
  {
    var chunk := BuildChunk(s, coordsChr, baseIsCpg, baseNearCpg, startD);
    ChunksStep(s, coordsChr, startD, acc, all);
    OutputsStep(sequences, masks, acc, chunk);
    seqsOut', masksOut' := seqsOut, masksOut;
    if chunk.Some? {
      seqsOut' := seqsOut + [chunk.value.obs];
      masksOut' := masksOut + [chunk.value.mask];
    }
    acc' := AppendChunk(acc, chunk);
  }

  /**
   * Appends one observation list and one mask per chunk of the chromosome to
   * `sequences` and `masks`, leaving their earlier entries unchanged; the
   * appended pairs are exactly the chunks of `ChunksFrom(s, coordsChr, 0)`.
   */
  method BuildMaskedSequences(s: string, coordsChr: seq<CpgRegion>,
                              sequences: seq<seq<int>>, masks: seq<seq<Allowed>>)
    returns (seqsOut: seq<seq<int>>, masksOut: seq<seq<Allowed>>)
    ensures seqsOut == sequences + ObsOf(ChunksFrom(s, coordsChr, 0))
    ensures masksOut == masks + MasksOf(ChunksFrom(s, coordsChr, 0))
  {
    var n := |s|;
    var baseIsCpg, baseNearCpg := MarkKnownRegions(n, coordsChr);
    seqsOut, masksOut := CollectChunks(s, coordsChr, baseIsCpg, baseNearCpg, sequences, masks);
  }

  /** The chunk loop: one round per CHUNK_D dinucleotides, reading the per-base flags. */
  method CollectChunks(s: string, coordsChr: seq<CpgRegion>, baseIsCpg: array<bool>, baseNearCpg: array<bool>,
                       sequences: seq<seq<int>>, masks: seq<seq<Allowed>>)
    returns (seqsOut: seq<seq<int>>, masksOut: seq<seq<Allowed>>)
    requires Flags(|s|, coordsChr, baseIsCpg, baseNearCpg)
    ensures seqsOut == sequences + ObsOf(ChunksFrom(s, coordsChr, 0))
    ensures masksOut == masks + MasksOf(ChunksFrom(s, coordsChr, 0))
  {
    var tFull := |s| - 1;
    seqsOut, masksOut := sequences, masks;
    ghost var all := ChunksFrom(s, coordsChr, 0);
    ghost var acc: seq<Chunk> := [];
    CollectedStart(s, coordsChr, sequences, masks);
    var startD := 0;
    while startD < tFull
      invariant Collected(s, coordsChr, startD, all, acc, sequences, masks, seqsOut, masksOut)
      decreases tFull - startD
    {
      seqsOut, masksOut, acc :=
        ChunkRound(s, coordsChr, baseIsCpg, baseNearCpg, startD, all, sequences, masks, acc, seqsOut, masksOut);
      startD := startD + CHUNK_D;
    }
    ChunksDone(s, coordsChr, startD, all, acc, sequences, masks, seqsOut, masksOut);
  }

  /** Before the first round nothing is gathered and the outputs are the inputs. */
  lemma CollectedStart(s: string, coords: seq<CpgRegion>, sequences: seq<seq<int>>, masks: seq<seq<Allowed>>)
    ensures Collected(s, coords, 0, ChunksFrom(s, coords, 0), [], sequences, masks, sequences, masks)
  {
    assert [] + ChunksFrom(s, coords, 0) == ChunksFrom(s, coords, 0);
    assert sequences + ObsOf([]) == sequences;
    assert masks + MasksOf([]) == masks;
  }

  /** Past the last pair no chunk is left, so the outputs hold every chunk. */
  lemma ChunksDone(s: string, coords: seq<CpgRegion>, startD: int, all: seq<Chunk>, acc: seq<Chunk>,
                   sequences: seq<seq<int>>, masks: seq<seq<Allowed>>,
                   seqsOut: seq<seq<int>>, masksOut: seq<seq<Allowed>>)
    requires startD >= |s| - 1
    requires Collected(s, coords, startD, all, acc, sequences, masks, seqsOut, masksOut)
    ensures seqsOut == sequences + ObsOf(all) && masksOut == masks + MasksOf(all)
  {
    assert ChunksFrom(s, coords, startD) == [];
    assert acc + [] == acc;
  }
}
