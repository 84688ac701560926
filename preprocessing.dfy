/**
 * Preprocessing of FASTA text, given as its list of lines: extraction of one
 * chromosome's uppercase bases with the 1-based stretches of non-uppercase
 * characters recorded, removal of known island positions from a background
 * sequence, and grouping of the positive set into sequences and coordinates.
 */
module Preprocessing {
  import opened Regions

  // ---------------------------------------------------------------------------
  // Text helpers standing in for the C++ string library

  /** isupper in the C locale. */
  predicate IsUpper(c: char) {
    'A' <= c <= 'Z'
  }

  predicate OccursAt(s: string, pat: string, k: int) {
    0 <= k && k + |pat| <= |s| && s[k..k + |pat|] == pat
  }

  /** string::find: the first occurrence of pat at or after `from`, or -1 for npos. */
  function Find(s: string, pat: string, from: nat): (r: int)
    ensures r == -1 || (from <= r && OccursAt(s, pat, r))
    ensures forall k :: from <= k && (r == -1 || k < r) ==> !OccursAt(s, pat, k)
    decreases |s| - from
  {
    if from + |pat| > |s| then -1
    else if s[from..from + |pat|] == pat then from
    else Find(s, pat, from + 1)
  }

  predicate Contains(s: string, pat: string) {
    Find(s, pat, 0) != -1
  }

  predicate IsDigit(c: char) {
    '0' <= c <= '9'
  }

  predicate IsSpace(c: char) {
    c == ' ' || c == '\t' || c == '\n' || c == '\r' || c == '\U{000B}' || c == '\U{000C}'
  }

  /** Number of leading decimal digits of s. */
  function DigitRun(s: string): (n: nat)
    ensures n <= |s|
  {
    if s == [] || !IsDigit(s[0]) then 0 else 1 + DigitRun(s[1..])
  }

  /** Value of a string of decimal digits. */
  function DigitsValue(ds: string): nat {
    if ds == [] then 0
    else
      var d := ds[|ds| - 1] as int - '0' as int;
      10 * DigitsValue(ds[..|ds| - 1]) + (if 0 <= d <= 9 then d else 0)
  }

  function SkipSpaces(s: string): string {
    if s != [] && IsSpace(s[0]) then SkipSpaces(s[1..]) else s
  }

  /**
   * stoi / stoll: optional leading white space, an optional sign and at least
   * one digit; None where the library throws invalid_argument.
   */
  function Stoi(s: string): Option<int> {
    var t := SkipSpaces(s);
    var negative := t != [] && t[0] == '-';
    var u := if t != [] && (t[0] == '-' || t[0] == '+') then t[1..] else t;
    var n := DigitRun(u);
    if n == 0 then None
    else
      var v: int := DigitsValue(u[..n]);
      Some(if negative then -v else v)
  }

  /** to_string of a non-negative number. */
  function NatToString(n: nat): (s: string)
    ensures s != []
  {
    var digit := ['0' + (n % 10) as char];
    if n < 10 then digit else NatToString(n / 10) + digit
  }

  /** to_string of an int. */
  function IntToString(n: int): string {
    if n < 0 then "-" + NatToString(-n) else NatToString(n)
  }

  /**
   * Header matching is a substring search, so the key for chromosome n also
   * matches the header of any chromosome whose number begins with n's digits
   * (the key for 1 matches the header of chromosome 17): the first such
   * record in the file is the one read.
   */
  lemma LongerNumberMatches(n: nat, more: string, rest: seq<string>)
    ensures Contains(">chromosome " + IntToString(n) + more, "chromosome " + IntToString(n))
    ensures Selected([">chromosome " + IntToString(n) + more] + rest, "chromosome " + IntToString(n), false)
            == Selected(rest, "chromosome " + IntToString(n), true)
  {
    var key := "chromosome " + IntToString(n);
    var line := ">chromosome " + IntToString(n) + more;
    assert line[1..1 + |key|] == key;
    assert OccursAt(line, key, 1);
    assert ([line] + rest)[1..] == rest;
  }

  // ---------------------------------------------------------------------------
  // load_chromosome

  /**
   * The characters processed: the sequence lines after the first header
   * containing `key`, up to the next header; empty lines are skipped.
   */
  function Selected(lines: seq<string>, key: string, inChr: bool): string
    decreases |lines|
  {
    if lines == [] then []
    else
      var line := lines[0];
      if |line| == 0 then Selected(lines[1..], key, inChr)
      else if line[0] == '>' then
        (if inChr then [] else Selected(lines[1..], key, Contains(line, key)))
      else if inChr then line + Selected(lines[1..], key, inChr)
      else Selected(lines[1..], key, inChr)
  }

  /** The uppercase characters of cs, in order. */
  function UpperOf(cs: string): string {
    if cs == [] then []
    else UpperOf(cs[..|cs| - 1]) + (if IsUpper(cs[|cs| - 1]) then [cs[|cs| - 1]] else [])
  }

  /** State of the character loop: recorded runs, whether a run is open and where it starts. */
  datatype Scan = Scan(runs: seq<LowerCaseRegion>, inLower: bool, start: int)

  /** One character at 1-based position pos. */
  function Step(s: Scan, c: char, pos: int): Scan {
    if IsUpper(c) then
      if s.inLower then Scan(s.runs + [LowerCaseRegion(s.start, pos - 1)], false, s.start)
      else s
    else if !s.inLower then Scan(s.runs, true, pos)
    else s
  }

  function ScanChars(cs: string): Scan {
    if cs == [] then Scan([], false, -1)
    else Step(ScanChars(cs[..|cs| - 1]), cs[|cs| - 1], |cs|)
  }

  /** The runs recorded for cs, including a run still open at its end. */
  function LowerRuns(cs: string): seq<LowerCaseRegion> {
    var s := ScanChars(cs);
    if s.inLower then s.runs + [LowerCaseRegion(s.start, |cs|)] else s.runs
  }

  /** No character at 0-based positions lo .. hi-1 is uppercase. */
  predicate AllLower(cs: string, lo: int, hi: int) {
    forall u :: lo <= u < hi && 0 <= u < |cs| ==> !IsUpper(cs[u])
  }

  /**
   * r is a maximal stretch of non-uppercase characters of cs, in 1-based
   * positions: preceded by an uppercase character or the start, followed by
   * one or the end.
   */
  predicate IsLowerRun(cs: string, r: LowerCaseRegion) {
    1 <= r.start <= r.end <= |cs| && AllLower(cs, r.start - 1, r.end) &&
    (r.start == 1 || IsUpper(cs[r.start - 2])) &&
    (r.end == |cs| || IsUpper(cs[r.end]))
  }

  /** Each run ends at least one character before the next starts. */
  predicate Apart(runs: seq<LowerCaseRegion>) {
    forall k :: 0 <= k < |runs| - 1 ==> runs[k].end + 1 < runs[k + 1].start
  }

  predicate InRuns(runs: seq<LowerCaseRegion>, u: int) {
    exists k :: 0 <= k < |runs| && runs[k].start <= u + 1 <= runs[k].end
  }

  function Total(runs: seq<LowerCaseRegion>): int {
    if runs == [] then 0
    else Total(runs[..|runs| - 1]) + (runs[|runs| - 1].end - runs[|runs| - 1].start + 1)
  }

  /** Every recorded run is a maximal stretch already closed by an uppercase character. */
  predicate RunsClosed(cs: string, runs: seq<LowerCaseRegion>) {
    forall k :: 0 <= k < |runs| ==> IsLowerRun(cs, runs[k]) && runs[k].end < |cs|
  }

  /** An open run reaches the end of cs from its maximal start; otherwise cs ends in uppercase. */
  predicate OpenRun(cs: string, s: Scan) {
    (s.inLower ==>
      1 <= s.start <= |cs| && AllLower(cs, s.start - 1, |cs|) &&
      (s.start == 1 || IsUpper(cs[s.start - 2])) &&
      (s.runs != [] ==> s.runs[|s.runs| - 1].end + 1 < s.start)) &&
    (!s.inLower ==> cs == [] || IsUpper(cs[|cs| - 1]))
  }

  /** Every non-uppercase character is in a recorded run or in the open one. */
  predicate LowerCovered(cs: string, s: Scan) {
    forall u :: 0 <= u < |cs| && !IsUpper(cs[u]) ==> InRuns(s.runs, u) || (s.inLower && s.start - 1 <= u)
  }

  /** Characters read: the uppercase ones, those in recorded runs and those in the open run. */
  function Accounted(s: Scan, upper: int, n: int): int {
    upper + Total(s.runs) + (if s.inLower then n - s.start + 1 else 0)
  }

  /** What the character loop keeps true after reading cs. */
  predicate ScanInv(cs: string, s: Scan) {
    RunsClosed(cs, s.runs) && Apart(s.runs) && OpenRun(cs, s) && LowerCovered(cs, s) &&
    Accounted(s, |UpperOf(cs)|, |cs|) == |cs|
  }

  /** A run closed before the end of cs stays a run when cs grows. */
  lemma ClosedRunStays(cs: string, c: char, r: LowerCaseRegion)
    requires IsLowerRun(cs, r) && r.end < |cs|
    ensures IsLowerRun(cs + [c], r)
  {
    var cs' := cs + [c];
    assert forall u :: 0 <= u < |cs| ==> cs'[u] == cs[u];
  }

  lemma RunsClosedStay(cs: string, c: char, runs: seq<LowerCaseRegion>)
    requires RunsClosed(cs, runs)
    ensures RunsClosed(cs + [c], runs)
  {
    forall k | 0 <= k < |runs|
      ensures IsLowerRun(cs + [c], runs[k])
    {
      ClosedRunStays(cs, c, runs[k]);
    }
  }

  /** Closing the open run at an uppercase character records a maximal, closed run. */
  lemma CloseRecords(cs: string, s: Scan, c: char)
    requires RunsClosed(cs, s.runs) && OpenRun(cs, s)
    requires IsUpper(c) && s.inLower
    ensures RunsClosed(cs + [c], s.runs + [LowerCaseRegion(s.start, |cs|)])
  {
    var cs' := cs + [c];
    var runs := s.runs + [LowerCaseRegion(s.start, |cs|)];
    assert forall u :: 0 <= u < |cs| ==> cs'[u] == cs[u];
    RunsClosedStay(cs, c, s.runs);
    forall k | 0 <= k < |runs|
      ensures IsLowerRun(cs', runs[k]) && runs[k].end < |cs'|
    {
      if k < |s.runs| {
        assert runs[k] == s.runs[k];
      }
    }
  }

  /** Closing the open run keeps every non-uppercase character in a recorded run. */
  lemma CloseCovers(cs: string, s: Scan, c: char)
    requires LowerCovered(cs, s)
    requires IsUpper(c) && s.inLower
    ensures forall u :: 0 <= u < |cs + [c]| && !IsUpper((cs + [c])[u]) ==>
      InRuns(s.runs + [LowerCaseRegion(s.start, |cs|)], u)
  {
    var cs' := cs + [c];
    var r := LowerCaseRegion(s.start, |cs|);
    var runs := s.runs + [r];
    forall u | 0 <= u < |cs'| && !IsUpper(cs'[u])
      ensures InRuns(runs, u)
    {
      assert u < |cs| && cs'[u] == cs[u];
      if InRuns(s.runs, u) {
        var k :| 0 <= k < |s.runs| && s.runs[k].start <= u + 1 <= s.runs[k].end;
        assert runs[k] == s.runs[k];
      } else {
        assert runs[|s.runs|] == r;
      }
    }
  }

  /** An uppercase character closes the open run. */
  lemma StepClose(cs: string, s: Scan, c: char)
    requires RunsClosed(cs, s.runs) && Apart(s.runs) && OpenRun(cs, s) && LowerCovered(cs, s)
    requires IsUpper(c) && s.inLower
    ensures var s' := Step(s, c, |cs| + 1);
      RunsClosed(cs + [c], s'.runs) && Apart(s'.runs) && OpenRun(cs + [c], s') && LowerCovered(cs + [c], s')
  {
    var s' := Step(s, c, |cs| + 1);
    assert s' == Scan(s.runs + [LowerCaseRegion(s.start, |cs|)], false, s.start);
    CloseRecords(cs, s, c);
    CloseCovers(cs, s, c);
  }

  /** A non-uppercase character after an uppercase one opens a run. */
  lemma StepOpen(cs: string, s: Scan, c: char)
    requires RunsClosed(cs, s.runs) && Apart(s.runs) && OpenRun(cs, s) && LowerCovered(cs, s)
    requires !IsUpper(c) && !s.inLower
    ensures var s' := Step(s, c, |cs| + 1);
      RunsClosed(cs + [c], s'.runs) && Apart(s'.runs) && OpenRun(cs + [c], s') && LowerCovered(cs + [c], s')
  {
    var cs' := cs + [c];
    assert forall u :: 0 <= u < |cs| ==> cs'[u] == cs[u];
    RunsClosedStay(cs, c, s.runs);
  }

  /** Any other character leaves the state as it is. */
  lemma StepSame(cs: string, s: Scan, c: char)
    requires RunsClosed(cs, s.runs) && Apart(s.runs) && OpenRun(cs, s) && LowerCovered(cs, s)
    requires IsUpper(c) == !s.inLower
    ensures var s' := Step(s, c, |cs| + 1);
      RunsClosed(cs + [c], s'.runs) && Apart(s'.runs) && OpenRun(cs + [c], s') && LowerCovered(cs + [c], s')
  {
    var cs' := cs + [c];
    assert forall u :: 0 <= u < |cs| ==> cs'[u] == cs[u];
    RunsClosedStay(cs, c, s.runs);
  }

  /** Reading one more character keeps the invariant. */
  lemma ScanStepKeep(cs: string, c: char)
    requires ScanInv(cs, ScanChars(cs))
    ensures ScanInv(cs + [c], ScanChars(cs + [c]))
  {
    var cs' := cs + [c];
    assert cs'[..|cs|] == cs;
    var s := ScanChars(cs);
    assert ScanChars(cs') == Step(s, c, |cs'|);
    assert UpperOf(cs') == UpperOf(cs) + (if IsUpper(c) then [c] else []);
    if IsUpper(c) && s.inLower {
      StepClose(cs, s, c);
      var r := LowerCaseRegion(s.start, |cs|);
      assert (s.runs + [r])[..|s.runs|] == s.runs;
    } else if !IsUpper(c) && !s.inLower {
      StepOpen(cs, s, c);
    } else {
      StepSame(cs, s, c);
    }
  }

  /** The loop invariant holds after every prefix. */
  lemma {:induction false} ScanInvHolds(cs: string)
    ensures ScanInv(cs, ScanChars(cs))
  {
    if cs != [] {
      var init := cs[..|cs| - 1];
      ScanInvHolds(init);
      ScanStepKeep(init, cs[|cs| - 1]);
      assert init + [cs[|cs| - 1]] == cs;
    }
  }

  /**
   * The recorded runs are exactly the maximal non-uppercase stretches: each
   * is one, they are in order with at least one character between
   * neighbours, every non-uppercase character lies in one, and the
   * uppercase characters and the runs together account for every character.
   */
  lemma LowerRunsSpec(cs: string)
    ensures forall k :: 0 <= k < |LowerRuns(cs)| ==> IsLowerRun(cs, LowerRuns(cs)[k])
    ensures Apart(LowerRuns(cs))
    ensures forall u :: 0 <= u < |cs| && !IsUpper(cs[u]) ==> InRuns(LowerRuns(cs), u)
    ensures |UpperOf(cs)| + Total(LowerRuns(cs)) == |cs|
  {
    ScanInvHolds(cs);
    var s := ScanChars(cs);
    if s.inLower {
      var runs := s.runs + [LowerCaseRegion(s.start, |cs|)];
      assert LowerRuns(cs) == runs;
      OpenRunRecorded(cs, s);
      OpenRunCovered(cs, s);
      assert runs[..|runs| - 1] == s.runs;
    }
  }

  /** The run still open at the end of cs, once recorded, is a maximal run apart from the others. */
  lemma OpenRunRecorded(cs: string, s: Scan)
    requires RunsClosed(cs, s.runs) && Apart(s.runs) && OpenRun(cs, s) && s.inLower
    ensures var runs := s.runs + [LowerCaseRegion(s.start, |cs|)];
      (forall k :: 0 <= k < |runs| ==> IsLowerRun(cs, runs[k])) && Apart(runs)
  {
    var runs := s.runs + [LowerCaseRegion(s.start, |cs|)];
    forall k | 0 <= k < |runs|
      ensures IsLowerRun(cs, runs[k])
    {
      if k < |s.runs| {
        assert runs[k] == s.runs[k];
      }
    }
    forall k | 0 <= k < |runs| - 1
      ensures runs[k].end + 1 < runs[k + 1].start
    {
      assert runs[k] == s.runs[k];
    }
  }

  /** With the open run recorded, every non-uppercase character lies in a run. */
  lemma OpenRunCovered(cs: string, s: Scan)
    requires LowerCovered(cs, s) && s.inLower
    ensures forall u :: 0 <= u < |cs| && !IsUpper(cs[u]) ==>
      InRuns(s.runs + [LowerCaseRegion(s.start, |cs|)], u)
  {
    var r := LowerCaseRegion(s.start, |cs|);
    var runs := s.runs + [r];
    forall u | 0 <= u < |cs| && !IsUpper(cs[u])
      ensures InRuns(runs, u)
    {
      if InRuns(s.runs, u) {
        var k :| 0 <= k < |s.runs| && s.runs[k].start <= u + 1 <= s.runs[k].end;
        assert runs[k] == s.runs[k];
      } else {
        assert runs[|s.runs|] == r;
      }
    }
  }

  /** ScanChars and UpperOf, one character further. */
  lemma ScanSnoc(cs: string, c: char)
    ensures ScanChars(cs + [c]) == Step(ScanChars(cs), c, |cs| + 1)
    ensures UpperOf(cs + [c]) == UpperOf(cs) + (if IsUpper(c) then [c] else [])
  {
    assert (cs + [c])[..|cs|] == cs;
  }

  /** One character of the loop: the scan state moves from ScanChars(cs) to ScanChars(cs + [c]). */
  method ReadChar(c: char, ghost cs: string, ghost pre: seq<LowerCaseRegion>,
                  genome: string, coords: seq<LowerCaseRegion>, inLower: bool, start: int, pos: int)
    returns (genome': string, coords': seq<LowerCaseRegion>, inLower': bool, start': int, pos': int)
    requires genome == UpperOf(cs) && pos == |cs| + 1
    requires ScanChars(cs) == Scan(ScanChars(cs).runs, inLower, start)
    requires coords == pre + ScanChars(cs).runs
    ensures genome' == UpperOf(cs + [c]) && pos' == |cs| + 2
    ensures ScanChars(cs + [c]) == Scan(ScanChars(cs + [c]).runs, inLower', start')
    ensures coords' == pre + ScanChars(cs + [c]).runs
  {
    ScanSnoc(cs, c);
    genome', coords', inLower', start' := genome, coords, inLower, start;
    if IsUpper(c) {
      genome' := genome' + [c];
      if inLower' {
        coords' := coords' + [LowerCaseRegion(start', pos - 1)];
        inLower' := false;
      }
    } else {
      if !inLower' {
        start' := pos;
        inLower' := true;
      }
    }
    pos' := pos + 1;
  }

  /** The character loop over one line, continuing the state left by earlier lines. */
  method ScanLine(line: string, ghost done: string, ghost pre: seq<LowerCaseRegion>,
                  genome: string, coords: seq<LowerCaseRegion>, inLower: bool, start: int, pos: int)
    returns (genome': string, coords': seq<LowerCaseRegion>, inLower': bool, start': int, pos': int)
    requires genome == UpperOf(done) && pos == |done| + 1
    requires ScanChars(done) == Scan(ScanChars(done).runs, inLower, start)
    requires coords == pre + ScanChars(done).runs
    ensures genome' == UpperOf(done + line) && pos' == |done + line| + 1
    ensures ScanChars(done + line) == Scan(ScanChars(done + line).runs, inLower', start')
    ensures coords' == pre + ScanChars(done + line).runs
  {
    genome', coords', inLower', start', pos' := genome, coords, inLower, start, pos;
    ghost var cs := done;
    assert done + line[..0] == done;
    for k := 0 to |line|
      invariant cs == done + line[..k]
      invariant genome' == UpperOf(cs) && pos' == |cs| + 1
      invariant ScanChars(cs) == Scan(ScanChars(cs).runs, inLower', start')
      invariant coords' == pre + ScanChars(cs).runs
    {
      genome', coords', inLower', start', pos' :=
        ReadChar(line[k], cs, pre, genome', coords', inLower', start', pos');
      cs := cs + [line[k]];
      assert cs == done + line[..k + 1];
    }
    assert line[..|line|] == line;
  }

  /** Selected, unfolded at line li. */
  lemma SelectedAt(lines: seq<string>, li: int, key: string, inChr: bool)
    requires 0 <= li < |lines|
    ensures var line := lines[li];
      Selected(lines[li..], key, inChr) ==
        if |line| == 0 then Selected(lines[li + 1..], key, inChr)
        else if line[0] == '>' then (if inChr then [] else Selected(lines[li + 1..], key, Contains(line, key)))
        else if inChr then line + Selected(lines[li + 1..], key, inChr)
        else Selected(lines[li + 1..], key, inChr)
  {
    assert lines[li..][0] == lines[li] && lines[li..][1..] == lines[li + 1..];
  }

  /** A sequence line inside the record: its characters are scanned and join the text selected so far. */
  method RecordLine(lines: seq<string>, li: int, key: string, ghost done: string, ghost pre: seq<LowerCaseRegion>,
                    genome: string, coords: seq<LowerCaseRegion>, inLower: bool, start: int, pos: int)
    returns (genome': string, coords': seq<LowerCaseRegion>, inLower': bool, start': int, pos': int,
             ghost done': string)
    requires 0 <= li < |lines| && |lines[li]| > 0 && lines[li][0] != '>'
    requires genome == UpperOf(done) && pos == |done| + 1
    requires ScanChars(done) == Scan(ScanChars(done).runs, inLower, start)
    requires coords == pre + ScanChars(done).runs
    ensures done' + Selected(lines[li + 1..], key, true) == done + Selected(lines[li..], key, true)
    ensures genome' == UpperOf(done') && pos' == |done'| + 1
    ensures ScanChars(done') == Scan(ScanChars(done').runs, inLower', start')
    ensures coords' == pre + ScanChars(done').runs
  {
    genome', coords', inLower', start', pos' := ScanLine(lines[li], done, pre, genome, coords, inLower, start, pos);
    done' := done + lines[li];
    SelectedAt(lines, li, key, true);
  }

  /** When the reader stops, at a header or at the end, the text selected so far is the whole selection. */
  lemma SelectionEnds(lines: seq<string>, li: int, key: string, inChr: bool, done: string, sel: string)
    requires 0 <= li <= |lines|
    requires done + Selected(lines[li..], key, inChr) == sel
    requires li == |lines| || Selected(lines[li..], key, inChr) == []
    ensures done == sel
  {
    if li == |lines| {
      assert lines[li..] == [];
    }
    assert done + [] == done;
  }

  /** The runs of cs are the recorded ones plus the run the state still has open. */
  lemma LowerRunsOfState(cs: string, inLower: bool, start: int)
    requires ScanChars(cs) == Scan(ScanChars(cs).runs, inLower, start)
    ensures LowerRuns(cs) ==
      ScanChars(cs).runs + (if inLower then [LowerCaseRegion(start, |cs|)] else [])
  {
    if !inLower {
      assert ScanChars(cs).runs + [] == ScanChars(cs).runs;
    }
  }

  /**
   * One line of the reader: an empty line is skipped, a header ends the
   * record (`stop`) or starts it when it contains the key, and a sequence
   * line of the record is scanned.
   */
  method ChromosomeLine(lines: seq<string>, li: int, key: string, inChr: bool,
                        ghost done: string, ghost pre: seq<LowerCaseRegion>,
                        genome: string, coords: seq<LowerCaseRegion>, inLower: bool, start: int, pos: int)
    returns (stop: bool, inChr': bool, genome': string, coords': seq<LowerCaseRegion>, inLower': bool,
             start': int, pos': int, ghost done': string)
    requires 0 <= li < |lines|
    requires genome == UpperOf(done) && pos == |done| + 1
    requires ScanChars(done) == Scan(ScanChars(done).runs, inLower, start)
    requires coords == pre + ScanChars(done).runs
    ensures stop ==> Selected(lines[li..], key, inChr) == [] && done' == done && inChr' == inChr
    ensures !stop ==> done' + Selected(lines[li + 1..], key, inChr') == done + Selected(lines[li..], key, inChr)
    ensures genome' == UpperOf(done') && pos' == |done'| + 1
    ensures ScanChars(done') == Scan(ScanChars(done').runs, inLower', start')
    ensures coords' == pre + ScanChars(done').runs
  {
    stop, inChr', genome', coords', inLower', start', pos', done' :=
      false, inChr, genome, coords, inLower, start, pos, done;
    var line := lines[li];
    if |line| > 0 && line[0] != '>' && inChr {
      genome', coords', inLower', start', pos', done' :=
        RecordLine(lines, li, key, done, pre, genome, coords, inLower, start, pos);
      return;
    }
    SelectedAt(lines, li, key, inChr);
    if |line| == 0 {
      return;
    }
    if line[0] == '>' {
      if inChr {
        stop := true;
        return;
      }
      if Find(line, key, 0) != -1 {
        inChr' := true;
      }
    }
  }

  /**
   * Reads the record of chromosome `chrNumber`: returns its uppercase
   * characters in order and appends to `lowercaseCoords` the maximal
   * stretches of other characters (1-based over all its characters),
   * including one still open at the end of the record.
   */
  method LoadChromosome(lines: seq<string>, chrNumber: int, lowercaseCoords: seq<LowerCaseRegion>)
    returns (genome: string, coordsOut: seq<LowerCaseRegion>)
    ensures var cs := Selected(lines, "chromosome " + IntToString(chrNumber), false);
      genome == UpperOf(cs) && coordsOut == lowercaseCoords + LowerRuns(cs)
  {
    genome, coordsOut := ReadRecord(lines, "chromosome " + IntToString(chrNumber), lowercaseCoords);
  }

  /** The line loop of LoadChromosome, for the record whose header contains `key`. */
  method ReadRecord(lines: seq<string>, key: string, lowercaseCoords: seq<LowerCaseRegion>)
    returns (genome: string, coordsOut: seq<LowerCaseRegion>)
    ensures var cs := Selected(lines, key, false);
      genome == UpperOf(cs) && coordsOut == lowercaseCoords + LowerRuns(cs)
  {
    genome := [];
    coordsOut := lowercaseCoords;
    var inCorrectChr := false;
    var inLower := false;
    var start := -1;
    var pos := 1;
    ghost var done: string := [];
    ghost var sel := Selected(lines, key, false);
    var li := 0;
    assert lines[li..] == lines;
    while li < |lines|
      invariant 0 <= li <= |lines|
      invariant done + Selected(lines[li..], key, inCorrectChr) == sel
      invariant genome == UpperOf(done) && pos == |done| + 1
      invariant ScanChars(done) == Scan(ScanChars(done).runs, inLower, start)
      invariant coordsOut == lowercaseCoords + ScanChars(done).runs
    {
      var stop;
      stop, inCorrectChr, genome, coordsOut, inLower, start, pos, done :=
        ChromosomeLine(lines, li, key, inCorrectChr, done, lowercaseCoords, genome, coordsOut, inLower, start, pos);
      if stop {
        break;
      }
      li := li + 1;
    }
    SelectionEnds(lines, li, key, inCorrectChr, done, sel);
    LowerRunsOfState(done, inLower, start);
    ghost var runs := ScanChars(done).runs;
    if inLower {
      coordsOut := coordsOut + [LowerCaseRegion(start, pos - 1)];
      assert (lowercaseCoords + runs) + [LowerCaseRegion(start, pos - 1)] ==
        lowercaseCoords + (runs + [LowerCaseRegion(start, pos - 1)]);
    }
    assert coordsOut == lowercaseCoords + LowerRuns(done);
  }

  // ---------------------------------------------------------------------------
  // load_background: removal of known islands

  /** Position q (1-based) lies in one of the coordinate ranges. */
  predicate CoveredBy(coords: seq<CpgRegion>, q: int) {
    exists k :: 0 <= k < |coords| && coords[k].start <= q <= coords[k].end
  }

  /** The characters of genome[..n] whose positions are not covered, in order ('\0' is dropped too). */
  function Uncovered(genome: string, coords: seq<CpgRegion>, n: nat): string
    requires n <= |genome|
  {
    if n == 0 then []
    else
      Uncovered(genome, coords, n - 1) +
        (if CoveredBy(coords, n) || genome[n - 1] == '\0' then [] else [genome[n - 1]])
  }

  lemma CoveredByAppend(coords: seq<CpgRegion>, k: int, q: int)
    requires 0 <= k < |coords|
    ensures CoveredBy(coords[..k + 1], q) <==> CoveredBy(coords[..k], q) || coords[k].start <= q <= coords[k].end
  {
    if CoveredBy(coords[..k + 1], q) {
      var m :| 0 <= m < k + 1 && coords[..k + 1][m].start <= q <= coords[..k + 1][m].end;
      if m < k {
        assert coords[..k][m] == coords[..k + 1][m];
      }
    }
    if CoveredBy(coords[..k], q) {
      var m :| 0 <= m < k && coords[..k][m].start <= q <= coords[..k][m].end;
      assert coords[..k + 1][m] == coords[..k][m];
    }
    if coords[k].start <= q <= coords[k].end {
      assert coords[..k + 1][k] == coords[k];
    }
  }

  /**
   * Blanks every position covered by a coordinate range (1-based; positions
   * past the end are ignored) and keeps the other characters in order.
   */
  method RemoveCovered(genomeIn: string, coords: seq<CpgRegion>) returns (cleaned: string)
    requires forall k :: 0 <= k < |coords| ==> coords[k].start >= 1 || coords[k].end < coords[k].start
    ensures cleaned == Uncovered(genomeIn, coords, |genomeIn|)
  {
    var genome := new char[|genomeIn|](i requires 0 <= i < |genomeIn| => genomeIn[i]);
    for k := 0 to |coords|
      invariant forall q :: 0 <= q < genome.Length ==>
        genome[q] == if CoveredBy(coords[..k], q + 1) then '\0' else genomeIn[q]
    {
      var r := coords[k];
      var i := r.start - 1;
      while i <= r.end - 1 && i < genome.Length
        invariant r.start - 1 <= i
        invariant i == r.start - 1 || i <= r.end
        invariant forall q :: 0 <= q < genome.Length ==>
          genome[q] == if CoveredBy(coords[..k], q + 1) || r.start - 1 <= q < i then '\0' else genomeIn[q]
        decreases genome.Length - i
      {
        genome[i] := '\0';
        i := i + 1;
      }
      forall q | 0 <= q < genome.Length
        ensures genome[q] == if CoveredBy(coords[..k + 1], q + 1) then '\0' else genomeIn[q]
      {
        CoveredByAppend(coords, k, q + 1);
      }
    }
    assert coords[..|coords|] == coords;
    cleaned := [];
    for i := 0 to genome.Length
      invariant cleaned == Uncovered(genomeIn, coords, i)
    {
      if genome[i] != '\0' {
        cleaned := cleaned + [genome[i]];
      }
    }
  }

  /**
   * Nothing is lost or invented: a character is kept exactly when its
   * position is not covered (and it is not '\0'), so the result is no longer
   * than the input, and without ranges a NUL-free genome is kept whole.
   */
  lemma {:induction false} UncoveredSpec(genome: string, coords: seq<CpgRegion>, n: nat)
    requires n <= |genome|
    ensures |Uncovered(genome, coords, n)| <= n
    ensures coords == [] && (forall q :: 0 <= q < n ==> genome[q] != '\0') ==>
      Uncovered(genome, coords, n) == genome[..n]
  {
    if n > 0 {
      UncoveredSpec(genome, coords, n - 1);
      assert genome[..n] == genome[..n - 1] + [genome[n - 1]];
    }
  }

  // ---------------------------------------------------------------------------
  // load_positive_cpg

  /**
   * What a header line yields: no range, a non-numeric chromosome, a region,
   * or a range the library cannot parse (the loader then stops with an
   * uncaught exception).
   */
  datatype Header = NoRange | NonNumeric | Malformed | Range(region: CpgRegion)

  const RANGE_TAG: string := "range=chr"

  /**
   * Parses "range=chr<chromosome>:<start>-<end>" out of a header: the
   * chromosome is the text up to ':', start the text up to '-', end the text
   * up to the next space (or the end of the line).
   */
  function ParseHeader(line: string): Header {
    var p := Find(line, RANGE_TAG, 0);
    if p == -1 then NoRange
    else
      var q := p + |RANGE_TAG|;
      var colon := Find(line, ":", q);
      var chrText := if colon == -1 then line[q..] else line[q..colon];
      match Stoi(chrText)
      case None => NonNumeric
      case Some(chromosome) =>
        if colon == -1 then Malformed
        else
          var dash := Find(line, "-", colon + 1);
          if dash == -1 then Malformed
          else
            var space := Find(line, " ", dash);
            var startText := line[colon + 1..dash];
            var endText := if space == -1 then line[dash + 1..] else line[dash + 1..space];
            match (Stoi(startText), Stoi(endText))
            case (Some(s), Some(e)) => Range(CpgRegion(s, e, chromosome))
            case _ => Malformed
  }

  /** The sequences: text between headers, flushed at each header and at the end when not empty. */
  function GroupFrom(lines: seq<string>, cur: string): seq<string>
    decreases |lines|
  {
    if lines == [] then (if cur != [] then [cur] else [])
    else
      var line := lines[0];
      if |line| == 0 then GroupFrom(lines[1..], cur)
      else if line[0] == '>' then (if cur != [] then [cur] else []) + GroupFrom(lines[1..], [])
      else GroupFrom(lines[1..], cur + line)
  }

  /** The coordinates: one region per header with a numeric "range=chr" field. */
  function CoordsFrom(lines: seq<string>): seq<CpgRegion>
    decreases |lines|
  {
    if lines == [] then []
    else
      var line := lines[0];
      var rest := CoordsFrom(lines[1..]);
      if |line| > 0 && line[0] == '>' && ParseHeader(line).Range? then [ParseHeader(line).region] + rest
      else rest
  }

  /** All sequence text, header lines and empty lines left out. */
  function SequenceText(lines: seq<string>): string
    decreases |lines|
  {
    if lines == [] then []
    else
      var line := lines[0];
      (if |line| > 0 && line[0] != '>' then line else []) + SequenceText(lines[1..])
  }

  function Flatten(ss: seq<string>): string {
    if ss == [] then [] else ss[0] + Flatten(ss[1..])
  }

  lemma FlattenAppend(a: seq<string>, b: seq<string>)
    ensures Flatten(a + b) == Flatten(a) + Flatten(b)
  {
    if a == [] {
      assert a + b == b;
    } else {
      assert (a + b)[0] == a[0] && (a + b)[1..] == a[1..] + b;
      FlattenAppend(a[1..], b);
    }
  }

  /**
   * Grouping loses and adds nothing: the sequences, joined, are the pending
   * text followed by all sequence lines; and no sequence is empty.
   */
  lemma GroupSpec(lines: seq<string>, cur: string)
    ensures Flatten(GroupFrom(lines, cur)) == cur + SequenceText(lines)
    ensures forall k :: 0 <= k < |GroupFrom(lines, cur)| ==> GroupFrom(lines, cur)[k] != []
  {
    GroupText(lines, cur);
    GroupNonEmpty(lines, cur);
  }

  lemma {:induction false} GroupText(lines: seq<string>, cur: string)
    ensures Flatten(GroupFrom(lines, cur)) == cur + SequenceText(lines)
    decreases |lines|
  {
    if lines == [] {
      if cur != [] {
        assert Flatten([cur]) == cur + Flatten([]);
      }
    } else {
      var line := lines[0];
      var text := SequenceText(lines[1..]);
      if |line| == 0 {
        assert SequenceText(lines) == [] + text;
        GroupText(lines[1..], cur);
      } else if line[0] == '>' {
        assert SequenceText(lines) == [] + text;
        GroupText(lines[1..], []);
        var head: seq<string> := if cur != [] then [cur] else [];
        FlattenAppend(head, GroupFrom(lines[1..], []));
        assert Flatten(head) == cur by {
          if cur != [] {
            assert Flatten([cur]) == cur + Flatten([]);
          }
        }
        assert GroupFrom(lines, cur) == head + GroupFrom(lines[1..], []);
        assert [] + text == text;
      } else {
        assert SequenceText(lines) == line + text;
        GroupText(lines[1..], cur + line);
        assert GroupFrom(lines, cur) == GroupFrom(lines[1..], cur + line);
        assert (cur + line) + text == cur + (line + text);
      }
    }
  }

  lemma {:induction false} GroupNonEmpty(lines: seq<string>, cur: string)
    ensures forall k :: 0 <= k < |GroupFrom(lines, cur)| ==> GroupFrom(lines, cur)[k] != []
    decreases |lines|
  {
    if lines != [] {
      var line := lines[0];
      if |line| == 0 {
        GroupNonEmpty(lines[1..], cur);
      } else if line[0] == '>' {
        GroupNonEmpty(lines[1..], []);
        var head: seq<string> := if cur != [] then [cur] else [];
        var rest := GroupFrom(lines[1..], []);
        var g := GroupFrom(lines, cur);
        assert g == head + rest;
        forall k | 0 <= k < |g|
          ensures g[k] != []
        {
          if k >= |head| {
            assert g[k] == rest[k - |head|];
          }
        }
      } else {
        GroupNonEmpty(lines[1..], cur + line);
      }
    }
  }

  /** GroupFrom, unfolded at line li. */
  lemma GroupAt(lines: seq<string>, li: int, cur: string)
    requires 0 <= li < |lines|
    ensures var line := lines[li];
      GroupFrom(lines[li..], cur) ==
        if |line| == 0 then GroupFrom(lines[li + 1..], cur)
        else if line[0] == '>' then (if cur != [] then [cur] else []) + GroupFrom(lines[li + 1..], [])
        else GroupFrom(lines[li + 1..], cur + line)
  {
    assert lines[li..][0] == lines[li] && lines[li..][1..] == lines[li + 1..];
  }

  /** CoordsFrom, unfolded at line li. */
  lemma CoordsAt(lines: seq<string>, li: int)
    requires 0 <= li < |lines|
    ensures var line := lines[li];
      CoordsFrom(lines[li..]) ==
        if |line| > 0 && line[0] == '>' && ParseHeader(line).Range?
        then [ParseHeader(line).region] + CoordsFrom(lines[li + 1..])
        else CoordsFrom(lines[li + 1..])
  {
    assert lines[li..][0] == lines[li] && lines[li..][1..] == lines[li + 1..];
  }

  /**
   * A header line: the pending sequence, if any, is flushed, and the header's
   * region is appended when it has a numeric "range=chr" field.
   */
  method HeaderLine(lines: seq<string>, li: int, ghost groups: seq<string>, ghost regions: seq<CpgRegion>,
                    cpgList: seq<string>, currentSeq: string, coordsOut: seq<CpgRegion>)
    returns (cpgList': seq<string>, currentSeq': string, coordsOut': seq<CpgRegion>)
    requires 0 <= li < |lines| && |lines[li]| > 0 && lines[li][0] == '>'
    requires !ParseHeader(lines[li]).Malformed?
    requires cpgList + GroupFrom(lines[li..], currentSeq) == groups
    requires coordsOut + CoordsFrom(lines[li..]) == regions
    ensures cpgList' + GroupFrom(lines[li + 1..], currentSeq') == groups
    ensures coordsOut' + CoordsFrom(lines[li + 1..]) == regions
  {
    var line := lines[li];
    cpgList', currentSeq', coordsOut' := cpgList, currentSeq, coordsOut;
    HeaderFlushes(lines, li, cpgList, currentSeq);
    if currentSeq != [] {
      cpgList' := cpgList + [currentSeq];
      currentSeq' := [];
    }
    var header := ParseHeader(line);
    HeaderRegion(lines, li, coordsOut);
    match header
    case Malformed =>
      assert false;
    case Range(r) =>
      coordsOut' := coordsOut + [r];
    case _ =>
  }

  /** At a header the pending sequence, if any, joins the list and a new one begins. */
  lemma HeaderFlushes(lines: seq<string>, li: int, cpgList: seq<string>, cur: string)
    requires 0 <= li < |lines| && |lines[li]| > 0 && lines[li][0] == '>'
    ensures (if cur != [] then cpgList + [cur] else cpgList) + GroupFrom(lines[li + 1..], []) ==
      cpgList + GroupFrom(lines[li..], cur)
  {
    GroupAt(lines, li, cur);
    var rest := GroupFrom(lines[li + 1..], []);
    if cur != [] {
      assert cpgList + ([cur] + rest) == (cpgList + [cur]) + rest;
    } else {
      assert [] + rest == rest;
    }
  }

  /** At a header with a numeric "range=chr" field its region joins the list. */
  lemma HeaderRegion(lines: seq<string>, li: int, coords: seq<CpgRegion>)
    requires 0 <= li < |lines| && |lines[li]| > 0 && lines[li][0] == '>'
    ensures var h := ParseHeader(lines[li]);
      (if h.Range? then coords + [h.region] else coords) + CoordsFrom(lines[li + 1..]) ==
      coords + CoordsFrom(lines[li..])
  {
    CoordsAt(lines, li);
    var h := ParseHeader(lines[li]);
    var rest := CoordsFrom(lines[li + 1..]);
    if h.Range? {
      assert coords + ([h.region] + rest) == (coords + [h.region]) + rest;
    }
  }

  /**
   * Groups the positive set: one sequence per header-delimited block with
   * text, in order, and one region appended to `coords` per header with a
   * numeric "range=chr" field; the two lists need not line up.
   */
  method LoadPositiveCpg(lines: seq<string>, coords: seq<CpgRegion>)
    returns (cpgList: seq<string>, coordsOut: seq<CpgRegion>)
    requires forall li :: 0 <= li < |lines| && |lines[li]| > 0 && lines[li][0] == '>' ==>
      !ParseHeader(lines[li]).Malformed?
    ensures cpgList == GroupFrom(lines, [])
    ensures coordsOut == coords + CoordsFrom(lines)
  {
    cpgList := [];
    coordsOut := coords;
    var currentSeq: string := [];
    for li := 0 to |lines|
      invariant cpgList + GroupFrom(lines[li..], currentSeq) == GroupFrom(lines, [])
      invariant coordsOut + CoordsFrom(lines[li..]) == coords + CoordsFrom(lines)
    {
      var line := lines[li];
      if |line| == 0 || line[0] != '>' {
        GroupAt(lines, li, currentSeq);
        CoordsAt(lines, li);
      }
      if |line| == 0 {
        continue;
      }
      if line[0] == '>' {
        cpgList, currentSeq, coordsOut :=
          HeaderLine(lines, li, GroupFrom(lines, []), coords + CoordsFrom(lines), cpgList, currentSeq, coordsOut);
      } else {
        currentSeq := currentSeq + line;
      }
    }
    assert lines[|lines|..] == [];
    if currentSeq != [] {
      cpgList := cpgList + [currentSeq];
    }
  }
}
