/**
 * bang.c's countRecords and startPositions: where in the data file each
 * worker would start reading.
 *
 * startPositions takes an approximate share of the remaining bytes, rounds it
 * up to the next record, then reads forward while consecutive lines are in the
 * same collision. The model keeps its arithmetic as written: the skipped-line
 * counter `offset` is never reset between workers and is added to a byte
 * position, the remaining size is taken from the previous worker's position,
 * and the first position leaves out the header.
 *
 * The file is the sequence of its record lines, so seeking to data byte
 * approxIndex and reading a line is indexing at approxIndex / STRIDE. Where
 * the C code would read outside the data lines (before the first record, or
 * past the last one, where fread leaves the buffers stale and the scan can
 * loop forever) the model returns None.
 */
module Planner {
  import opened Options
  import opened Layout
  import opened CLib
  import opened Collision

  /** countRecords: how many whole records follow the header in a file of the given size. */
  function CountRecords(fileBytes: int): (n: int)
    ensures fileBytes >= DATA_START ==> n >= 0 && DATA_START + STRIDE * n <= fileBytes < DATA_START + STRIDE * (n + 1)
    ensures fileBytes < DATA_START ==> n <= 0 && fileBytes - DATA_START <= STRIDE * n < fileBytes - DATA_START + STRIDE
  {
    CDivRem(fileBytes - DATA_START, STRIDE);
    CDiv(fileBytes - DATA_START, STRIDE)
  }

  /** A file made of a header and n records holds n records. */
  lemma CountRecordsOfFile(f: DataFile)
    ensures CountRecords(f.Size()) == |f.lines|
  {
    var n := CountRecords(f.Size());
    assert STRIDE * n <= STRIDE * |f.lines| < STRIDE * (n + 1);
  }

  /**
   * The alignment step of startPositions: move to the start of the next
   * record. The result is always a whole number of records from the data
   * start; a position already on a record boundary still moves a full record.
   */
  function Align(approxIndex: int): (r: int)
    ensures r % STRIDE == 0
    ensures approxIndex >= 0 ==> approxIndex < r <= approxIndex + STRIDE
    ensures approxIndex < 0 ==> approxIndex + STRIDE <= r < approxIndex + 2 * STRIDE
  {
    CDivRem(approxIndex, STRIDE);
    approxIndex + STRIDE - CRem(approxIndex, STRIDE)
  }

  // ----------------------------------------------------------- the scan

  /**
   * The scan loop of startPositions begun with line i as prevLine and line
   * i + 1 as curLine: how many times it advances before sameCol fails, or None
   * when it would read past the last line.
   */
  function ScanRun(lines: seq<Line>, i: nat): Option<nat>
    decreases |lines| - i
  {
    if i + 1 >= |lines| then None
    else if !SameCol(lines[i], lines[i + 1]) then Some(0)
    else
      match ScanRun(lines, i + 1)
      case None => None
      case Some(k) => Some(k + 1)
  }

  /** The scan from the line at data byte approxIndex; None when that is before the first record. */
  function ScanAt(lines: seq<Line>, approxIndex: int): Option<nat> {
    if approxIndex < 0 then None else ScanRun(lines, approxIndex / STRIDE)
  }

  /**
   * A scan that stops after k steps has run through the rest of line i's
   * collision: lines i..i + k are all in it and line i + k + 1 is the first
   * line after it.
   */
  lemma {:induction false} ScanRunEndsCollision(lines: seq<Line>, i: nat, k: nat)
    requires ScanRun(lines, i) == Some(k)
    ensures i + k + 1 < |lines|
    ensures forall j :: i <= j <= i + k ==> SameCol(lines[i], lines[j])
    ensures !SameCol(lines[i + k], lines[i + k + 1])
    ensures !SameCol(lines[i], lines[i + k + 1])
    decreases |lines| - i
  {
    SameColReflexive(lines[i]);
    if k > 0 {
      ScanRunEndsCollision(lines, i + 1, k - 1);
      forall j | i <= j <= i + k
        ensures SameCol(lines[i], lines[j])
      {
        if j > i {
          SameColTransitive(lines[i], lines[i + 1], lines[j]);
        }
      }
    }
    if SameCol(lines[i], lines[i + k + 1]) {
      SameColSymmetric(lines[i], lines[i + k]);
      SameColTransitive(lines[i + k], lines[i], lines[i + k + 1]);
    }
  }

  /**
   * A scan that runs off the end does so because line i's collision lasts to
   * the last line of the file.
   */
  lemma {:induction false} ScanRunReachesEnd(lines: seq<Line>, i: nat)
    requires i < |lines| && ScanRun(lines, i).None?
    ensures forall j :: i <= j < |lines| ==> SameCol(lines[i], lines[j])
    decreases |lines| - i
  {
    SameColReflexive(lines[i]);
    if i + 1 < |lines| {
      ScanRunReachesEnd(lines, i + 1);
      forall j | i < j < |lines|
        ensures SameCol(lines[i], lines[j])
      {
        SameColTransitive(lines[i], lines[i + 1], lines[j]);
      }
    }
  }

  // ----------------------------------------------- the plan, step by step

  /** What one pass of startPositions' outer loop leaves behind: approxIndex and offset. */
  datatype Step = Step(approxIndex: int, offset: nat)

  /** The state before pass w: approxIndex and offset start at 0. */
  function Before(steps: seq<Step>, w: nat): Step
    requires w <= |steps|
  {
    if w == 0 then Step(0, 0) else steps[w - 1]
  }

  /** index[w] as startPositions writes it. */
  function StartOf(steps: seq<Step>, w: nat): int
    requires w <= |steps|
  {
    if w == 0 then 0 else steps[w - 1].approxIndex + steps[w - 1].offset + DATA_START
  }

  /** The whole index array startPositions returns. */
  function Indices(steps: seq<Step>): (index: seq<int>)
    ensures |index| == |steps| + 1
    ensures forall w :: 0 <= w <= |steps| ==> index[w] == StartOf(steps, w)
  {
    seq(|steps| + 1, w requires 0 <= w <= |steps| => StartOf(steps, w))
  }

  /**
   * The outer loop of startPositions from pass |steps| on, with sizeLeft the
   * remaining size it has computed so far.
   */
  function PlanFrom(f: DataFile, workerCount: int, steps: seq<Step>, sizeLeft: int): (r: Option<seq<Step>>)
    requires |steps| < workerCount
    ensures r.Some? ==> |r.value| == workerCount - 1
    decreases workerCount - |steps|
  {
    var w := |steps|;
    if w == workerCount - 1 then Some(steps)
    else
      var prev := Before(steps, w);
      var approxIndex := Align(prev.approxIndex + CDiv(sizeLeft, workerCount - w - 1));
      match ScanAt(f.lines, approxIndex)
      case None => None
      case Some(k) =>
        PlanFrom(f, workerCount, steps + [Step(approxIndex, prev.offset + k)], f.DataSize() - StartOf(steps, w))
  }

  /** The passes startPositions makes for workerCount workers, or None if one reads outside the data. */
  function Plan(f: DataFile, workerCount: int): (r: Option<seq<Step>>)
    requires workerCount >= 1
    ensures r.Some? ==> |r.value| == workerCount - 1
  {
    PlanFrom(f, workerCount, [], f.DataSize())
  }

  /** One pass of the scan, unfolded: a matching pair of lines adds one to the count of the rest. */
  lemma ScanRunStep(lines: seq<Line>, start: nat, pos: nat)
    requires start <= pos && pos + 1 < |lines| && SameCol(lines[pos], lines[pos + 1])
    requires ScanRun(lines, start) == Shift(ScanRun(lines, pos), pos - start)
    ensures ScanRun(lines, start) == Shift(ScanRun(lines, pos + 1), pos + 1 - start)
  {
  }

  /** A pass whose scan succeeds records its step and goes on with the next pass. */
  lemma PlanFromStep(f: DataFile, workerCount: int, steps: seq<Step>, sizeLeft: int, approxIndex: int, k: nat)
    requires |steps| < workerCount - 1
    requires approxIndex == Align(Before(steps, |steps|).approxIndex + CDiv(sizeLeft, workerCount - |steps| - 1))
    requires ScanAt(f.lines, approxIndex) == Some(k)
    ensures PlanFrom(f, workerCount, steps, sizeLeft)
         == PlanFrom(f, workerCount, steps + [Step(approxIndex, Before(steps, |steps|).offset + k)], f.DataSize() - StartOf(steps, |steps|))
  {
  }

  /** A pass whose scan reads outside the data ends the plan with None. */
  lemma PlanFromStops(f: DataFile, workerCount: int, steps: seq<Step>, sizeLeft: int, approxIndex: int)
    requires |steps| < workerCount - 1
    requires approxIndex == Align(Before(steps, |steps|).approxIndex + CDiv(sizeLeft, workerCount - |steps| - 1))
    requires ScanAt(f.lines, approxIndex).None?
    ensures PlanFrom(f, workerCount, steps, sizeLeft).None?
  {
  }

  /** Appending a step keeps the earlier positions and adds its own. */
  lemma StartOfSnoc(steps: seq<Step>, step: Step)
    ensures forall w :: 0 <= w <= |steps| ==> StartOf(steps + [step], w) == StartOf(steps, w)
    ensures StartOf(steps + [step], |steps| + 1) == step.approxIndex + step.offset + DATA_START
  {
  }

  /** An optional count, moved up by d. */
  function Shift(k: Option<nat>, d: nat): Option<nat> {
    match k
    case None => None
    case Some(n) => Some(n + d)
  }

  /**
   * The seek and scan loop of startPositions: read the record at data byte
   * approxIndex and the one after it, and advance while sameCol holds,
   * counting the lines passed. startPositions adds the count to its running
   * offset one line at a time; here the count is returned and added once.
   */
  method SkipCollision(f: DataFile, approxIndex: int) returns (skipped: Option<nat>)
    ensures skipped == ScanAt(f.lines, approxIndex)
  {
    if approxIndex < 0 {
      return None;
    }
    var pos := approxIndex / STRIDE;
    if pos + 1 >= |f.lines| {
      return None;
    }
    var prevLine := f.lines[pos];
    var curLine := f.lines[pos + 1];
    var count := 0;
    while SameCol(prevLine, curLine)
      invariant approxIndex / STRIDE <= pos && pos + 1 < |f.lines|
      invariant prevLine == f.lines[pos] && curLine == f.lines[pos + 1]
      invariant count == pos - approxIndex / STRIDE
      invariant ScanAt(f.lines, approxIndex) == Shift(ScanRun(f.lines, pos), count)
      decreases |f.lines| - pos
    {
      ScanRunStep(f.lines, approxIndex / STRIDE, pos);
      count := count + 1;
      prevLine := curLine;
      if pos + 2 >= |f.lines| {
        return None;
      }
      curLine := f.lines[pos + 2];
      pos := pos + 1;
    }
    return Some(count);
  }

  /**
   * startPositions. The C code allocates workerCount - 1 ints and writes
   * workerCount of them; the model gives the array its full workerCount.
   */
  method StartPositions(f: DataFile, workerCount: int) returns (index: Option<seq<int>>)
    requires workerCount >= 1
    ensures index == match Plan(f, workerCount) case None => None case Some(steps) => Some(Indices(steps))
  {
    var positions := new int[workerCount];
    var totalSize := f.Size();
    var sizeLeft := f.Size();
    var approxIndex := 0;
    var offset: nat := 0;

    totalSize := totalSize - DATA_START;
    sizeLeft := sizeLeft - DATA_START;

    positions[0] := 0;

    ghost var steps: seq<Step> := [];
    for curWorker := 0 to workerCount - 1
      invariant |steps| == curWorker
      invariant totalSize == f.DataSize()
      invariant PlanFrom(f, workerCount, steps, sizeLeft) == Plan(f, workerCount)
      invariant Step(approxIndex, offset) == Before(steps, curWorker)
      invariant forall w :: 0 <= w <= curWorker ==> positions[w] == StartOf(steps, w)
    {
      ghost var approx0 := approxIndex;
      approxIndex := approxIndex + CDiv(sizeLeft, workerCount - curWorker - 1);
      approxIndex := approxIndex + STRIDE - CRem(approxIndex, STRIDE);
      assert approxIndex == Align(approx0 + CDiv(sizeLeft, workerCount - curWorker - 1));

      var skipped := SkipCollision(f, approxIndex);
      if skipped.None? {
        PlanFromStops(f, workerCount, steps, sizeLeft, approxIndex);
        return None;
      }
      PlanFromStep(f, workerCount, steps, sizeLeft, approxIndex, skipped.value);
      offset := offset + skipped.value;
      positions[curWorker + 1] := approxIndex + offset + DATA_START;
      sizeLeft := totalSize - positions[curWorker];
      StartOfSnoc(steps, Step(approxIndex, offset));
      steps := steps + [Step(approxIndex, offset)];
    }
    assert PlanFrom(f, workerCount, steps, sizeLeft) == Some(steps);
    assert positions[..] == Indices(steps);
    index := Some(positions[..]);
  }

  // ------------------------------------------------ what the plan promises

  /** Pass w seeked to a record of the data and scanned to the end of that record's collision. */
  ghost predicate PassScanned(f: DataFile, steps: seq<Step>, w: nat)
    requires w < |steps|
  {
    && 0 <= steps[w].approxIndex
    && steps[w].approxIndex % STRIDE == 0
    && Before(steps, w).offset <= steps[w].offset
    && ScanRun(f.lines, steps[w].approxIndex / STRIDE) == Some(steps[w].offset - Before(steps, w).offset)
  }

  ghost predicate PassesScanned(f: DataFile, steps: seq<Step>) {
    forall w: nat :: w < |steps| ==> PassScanned(f, steps, w)
  }

  lemma PassesScannedSnoc(f: DataFile, steps: seq<Step>, step: Step)
    requires PassesScanned(f, steps)
    requires 0 <= step.approxIndex && step.approxIndex % STRIDE == 0
    requires Before(steps, |steps|).offset <= step.offset
    requires ScanRun(f.lines, step.approxIndex / STRIDE) == Some(step.offset - Before(steps, |steps|).offset)
    ensures PassesScanned(f, steps + [step])
  {
    var next := steps + [step];
    forall w: nat | w < |next|
      ensures PassScanned(f, next, w)
    {
      if w < |steps| {
        assert PassScanned(f, steps, w);
        assert next[w] == steps[w] && Before(next, w) == Before(steps, w);
      }
    }
  }

  lemma {:induction false} PlanFromPasses(f: DataFile, workerCount: int, steps: seq<Step>, sizeLeft: int, result: seq<Step>)
    requires |steps| < workerCount
    requires PassesScanned(f, steps)
    requires PlanFrom(f, workerCount, steps, sizeLeft) == Some(result)
    ensures |result| == workerCount - 1 && steps <= result
    ensures PassesScanned(f, result)
    decreases workerCount - |steps|
  {
    var w := |steps|;
    if w < workerCount - 1 {
      var prev := Before(steps, w);
      var approxIndex := Align(prev.approxIndex + CDiv(sizeLeft, workerCount - w - 1));
      var k := ScanAt(f.lines, approxIndex).value;
      var step := Step(approxIndex, prev.offset + k);
      PassesScannedSnoc(f, steps, step);
      PlanFromPasses(f, workerCount, steps + [step], f.DataSize() - StartOf(steps, w), result);
    }
  }

  /**
   * What startPositions computes when every pass stays inside the data:
   * one position per worker, the first 0, each later one the pass's aligned
   * approximate index plus the running offset plus the header, and the running
   * offset never decreases.
   */
  lemma PlanPositions(f: DataFile, workerCount: int, steps: seq<Step>)
    requires workerCount >= 1 && Plan(f, workerCount) == Some(steps)
    ensures |steps| == workerCount - 1 && |Indices(steps)| == workerCount
    ensures Indices(steps)[0] == 0
    ensures forall w :: 0 <= w < |steps| ==>
      && 0 <= steps[w].approxIndex && steps[w].approxIndex % STRIDE == 0
      && Indices(steps)[w + 1] == steps[w].approxIndex + steps[w].offset + DATA_START
      && Before(steps, w).offset <= steps[w].offset
  {
    PlanFromPasses(f, workerCount, [], f.DataSize(), steps);
    var index := Indices(steps);
    assert index[0] == StartOf(steps, 0);
    forall w | 0 <= w < |steps|
      ensures 0 <= steps[w].approxIndex && steps[w].approxIndex % STRIDE == 0
      ensures index[w + 1] == steps[w].approxIndex + steps[w].offset + DATA_START
      ensures Before(steps, w).offset <= steps[w].offset
    {
      assert PassScanned(f, steps, w);
      assert index[w + 1] == StartOf(steps, w + 1);
    }
  }

  /**
   * Each pass adds to the running offset exactly the number of lines after
   * the seeked record that are in that record's collision: they all are, and
   * the line after them is not.
   */
  lemma PlanPassSkipsCollision(f: DataFile, workerCount: int, steps: seq<Step>, w: nat)
    requires workerCount >= 1 && Plan(f, workerCount) == Some(steps) && w < |steps|
    ensures var first := steps[w].approxIndex / STRIDE;
      var skipped := steps[w].offset - Before(steps, w).offset;
      && 0 <= steps[w].approxIndex && 0 <= skipped
      && first + skipped + 1 < |f.lines|
      && (forall j :: first <= j <= first + skipped ==> SameCol(f.lines[first], f.lines[j]))
      && !SameCol(f.lines[first], f.lines[first + skipped + 1])
  {
    PlanFromPasses(f, workerCount, [], f.DataSize(), steps);
    assert PassScanned(f, steps, w);
    var first := steps[w].approxIndex / STRIDE;
    ScanRunEndsCollision(f.lines, first, steps[w].offset - Before(steps, w).offset);
  }

  /**
   * A later worker's position is on a record boundary only when the running
   * offset, a count of lines, happens to be a multiple of the record stride.
   */
  lemma PlanPositionOffRecord(f: DataFile, workerCount: int, steps: seq<Step>, w: nat)
    requires workerCount >= 1 && Plan(f, workerCount) == Some(steps) && w < |steps|
    ensures (Indices(steps)[w + 1] - DATA_START) % STRIDE == steps[w].offset % STRIDE
  {
    PlanFromPasses(f, workerCount, [], f.DataSize(), steps);
    assert PassScanned(f, steps, w);
    assert Indices(steps)[w + 1] == StartOf(steps, w + 1);
    var q := steps[w].approxIndex / STRIDE;
    assert steps[w].approxIndex == STRIDE * q;
    MultipleAddMod(q, steps[w].offset);
  }

  lemma MultipleAddMod(q: int, o: int)
    ensures (STRIDE * q + o) % STRIDE == o % STRIDE
  {
  }

  /**
   * With two workers, the only pass takes all of the data as its share, so the
   * aligned approximate index is a record past the end and the scan reads
   * outside the file, whatever the file holds.
   */
  lemma TwoWorkersOverrun(f: DataFile)
    ensures Plan(f, 2).None?
  {
    var size := f.DataSize();
    assert CDiv(size, 1) == size;
    var approxIndex := Align(size);
    PastLastRecord(f, approxIndex);
    PlanFromStops(f, 2, [], size, approxIndex);
  }

  /**
   * With three workers, the second pass divides the whole data size by one
   * and adds it to the first pass's index, so it too lands past the end.
   */
  lemma ThreeWorkersOverrun(f: DataFile)
    ensures Plan(f, 3).None?
  {
    var size := f.DataSize();
    CDivRem(size, 2);
    var approx0 := Align(CDiv(size, 2));
    var first := ScanAt(f.lines, approx0);
    if first.None? {
      PlanFromStops(f, 3, [], size, approx0);
    } else {
      PlanFromStep(f, 3, [], size, approx0, first.value);
      var steps := [Step(approx0, first.value)];
      assert [] + [Step(approx0, first.value)] == steps;
      assert CDiv(size, 1) == size;
      var approx1 := Align(approx0 + size);
      PastLastRecord(f, approx1);
      PlanFromStops(f, 3, steps, size - StartOf([], 0), approx1);
    }
  }

  /**
   * A scan from line i over lines that stay in one collision up to line e,
   * where sameCol fails against line e + 1, stops after e - i lines.
   */
  lemma {:induction false} ScanRunToBreak(lines: seq<Line>, i: nat, e: nat)
    requires i <= e && e + 1 < |lines|
    requires forall j :: i <= j < e ==> SameCol(lines[j], lines[j + 1])
    requires !SameCol(lines[e], lines[e + 1])
    ensures ScanRun(lines, i) == Some(e - i)
    decreases e - i
  {
    if i < e {
      ScanRunToBreak(lines, i + 1, e);
    }
  }

  /** A scan from a record after the last one reads outside the data. */
  lemma PastLastRecord(f: DataFile, approxIndex: int)
    requires approxIndex > f.DataSize()
    ensures ScanAt(f.lines, approxIndex).None?
  {
    var n := |f.lines|;
    assert approxIndex >= STRIDE * n;
    assert approxIndex / STRIDE >= n;
  }

  // ------------------------------------------------ the evidently intended plan

  /** The first line at or after line i that starts a collision, or |lines| when none does. */
  function NextBoundary(lines: seq<Line>, i: nat): (j: nat)
    ensures j <= |lines|
    ensures i <= |lines| ==> i <= j
    ensures j < |lines| ==> StartsCollision(lines, j)
    ensures forall m :: i <= m < j ==> !StartsCollision(lines, m)
    decreases |lines| - i
  {
    if i >= |lines| then |lines|
    else if StartsCollision(lines, i) then i
    else NextBoundary(lines, i + 1)
  }

  /**
   * The plan startPositions evidently intends, in record numbers: each later
   * worker starts at the first collision boundary at or after an even share
   * of the records left to the remaining workers. A worker for whom no
   * boundary is left starts at the end of the data and reads nothing.
   */
  function IntendedFrom(lines: seq<Line>, workerCount: nat, starts: seq<nat>): (r: seq<nat>)
    requires 1 <= |starts| <= workerCount
    ensures |r| == workerCount && starts <= r
    decreases workerCount - |starts|
  {
    if |starts| == workerCount then starts
    else
      var start := starts[|starts| - 1];
      var left := if start <= |lines| then |lines| - start else 0;
      var share := left / (workerCount - |starts| + 1);
      IntendedFrom(lines, workerCount, starts + [NextBoundary(lines, start + share)])
  }

  /** The record each worker starts at under the corrected plan; the first starts at record 0. */
  function IntendedStarts(lines: seq<Line>, workerCount: nat): (r: seq<nat>)
    requires workerCount >= 1
    ensures |r| == workerCount && r[0] == 0
  {
    IntendedFrom(lines, workerCount, [0])
  }

  /** The intended index array: the byte position of each worker's first record, header included. */
  function IntendedPositions(f: DataFile, workerCount: nat): seq<int>
    requires workerCount >= 1
  {
    var starts := IntendedStarts(f.lines, workerCount);
    seq(|starts|, w requires 0 <= w < |starts| => DATA_START + STRIDE * starts[w])
  }

  /**
   * Starts that cut the data only between collisions: the first is record 0,
   * they never go back, and each later one is the end of the data or a line
   * that starts a collision.
   */
  ghost predicate CutsBetweenCollisions(lines: seq<Line>, starts: seq<nat>) {
    && |starts| >= 1 && starts[0] == 0
    && (forall w :: 0 <= w < |starts| ==> starts[w] <= |lines|)
    && (forall w :: 0 < w < |starts| ==> starts[w - 1] <= starts[w])
    && (forall w :: 0 < w < |starts| && starts[w] < |lines| ==> StartsCollision(lines, starts[w]))
  }

  /** Adding a start at or after the last one, on a collision boundary or at the end, keeps the cuts between collisions. */
  lemma CutsSnoc(lines: seq<Line>, starts: seq<nat>, j: nat)
    requires CutsBetweenCollisions(lines, starts)
    requires starts[|starts| - 1] <= j <= |lines|
    requires j < |lines| ==> StartsCollision(lines, j)
    ensures CutsBetweenCollisions(lines, starts + [j])
  {
    var next := starts + [j];
    assert forall w :: 0 <= w < |starts| ==> next[w] == starts[w];
  }

  lemma ShareAtMostWhole(left: nat, parts: int)
    requires parts >= 1
    ensures 0 <= left / parts <= left
  {
  }

  lemma {:induction false} IntendedFromCuts(lines: seq<Line>, workerCount: nat, starts: seq<nat>)
    requires 1 <= |starts| <= workerCount
    requires CutsBetweenCollisions(lines, starts)
    ensures var r := IntendedFrom(lines, workerCount, starts);
      |r| == workerCount && CutsBetweenCollisions(lines, r)
    decreases workerCount - |starts|
  {
    if |starts| < workerCount {
      var start := starts[|starts| - 1];
      var left := |lines| - start;
      var share := left / (workerCount - |starts| + 1);
      ShareAtMostWhole(left, workerCount - |starts| + 1);
      var next := starts + [NextBoundary(lines, start + share)];
      CutsSnoc(lines, starts, NextBoundary(lines, start + share));
      IntendedFromCuts(lines, workerCount, next);
    }
  }

  /**
   * The intended plan gives every worker a start, the first at record 0, in
   * order, and cuts the data only where one collision ends and the next begins.
   */
  lemma IntendedStartsCutBetweenCollisions(lines: seq<Line>, workerCount: nat)
    requires workerCount >= 1
    ensures var r := IntendedStarts(lines, workerCount);
      && |r| == workerCount && r[0] == 0
      && (forall w :: 0 <= w < |r| ==> r[w] <= |lines|)
      && (forall w :: 0 < w < |r| ==> r[w - 1] <= r[w])
      && (forall w :: 0 < w < |r| && 0 < r[w] < |lines| ==> !SameCol(lines[r[w] - 1], lines[r[w]]))
  {
    IntendedFromCuts(lines, workerCount, [0]);
  }

  /**
   * The intended positions are all whole records after the header: the first
   * is the first record of the data and every one is inside the file.
   */
  lemma IntendedPositionsOnRecords(f: DataFile, workerCount: nat)
    requires workerCount >= 1
    ensures var p := IntendedPositions(f, workerCount);
      && |p| == workerCount && p[0] == DATA_START
      && (forall w :: 0 <= w < |p| ==> DATA_START <= p[w] <= f.Size() && (p[w] - DATA_START) % STRIDE == 0)
  {
    var starts := IntendedStarts(f.lines, workerCount);
    IntendedStartsCutBetweenCollisions(f.lines, workerCount);
    var p := IntendedPositions(f, workerCount);
    forall w | 0 <= w < |p|
      ensures DATA_START <= p[w] <= f.Size() && (p[w] - DATA_START) % STRIDE == 0
    {
      MultipleAddMod(starts[w], 0);
    }
  }

  // ------------------------------------------- collisions across the workers

  /** The collisions each worker would count in its part of the data, added up. */
  function PartCollisions(lines: seq<Line>, starts: seq<nat>): nat
    requires forall w :: 0 <= w < |starts| ==> starts[w] <= |lines|
    requires forall w :: 0 < w < |starts| ==> starts[w - 1] <= starts[w]
    decreases |starts|
  {
    if starts == [] then 0
    else
      var end := if |starts| == 1 then |lines| else starts[1];
      Collisions(lines[starts[0]..end]) + PartCollisions(lines, starts[1..])
  }

  /**
   * When the cuts fall between collisions, the workers' counts add up to the
   * count of the data read in one run from the first start.
   */
  lemma {:induction false} PartCollisionsAddUp(lines: seq<Line>, starts: seq<nat>)
    requires |starts| >= 1
    requires forall w :: 0 <= w < |starts| ==> starts[w] <= |lines|
    requires forall w :: 0 < w < |starts| ==> starts[w - 1] <= starts[w]
    requires forall w :: 0 < w < |starts| && starts[w] < |lines| ==> StartsCollision(lines, starts[w])
    ensures PartCollisions(lines, starts) == Collisions(lines[starts[0]..])
    decreases |starts|
  {
    if |starts| == 1 {
      assert PartCollisions(lines, starts[1..]) == 0;
      assert lines[starts[0]..|lines|] == lines[starts[0]..];
    } else {
      var rest := starts[1..];
      assert rest[0] == starts[1];
      PartCollisionsAddUp(lines, rest);
      var front := lines[starts[0]..starts[1]];
      var back := lines[starts[1]..];
      assert lines[starts[0]..] == front + back;
      if front != [] && back != [] {
        assert StartsCollision(lines, starts[1]);
        assert front[|front| - 1] == lines[starts[1] - 1] && back[0] == lines[starts[1]];
      }
      CollisionsSplitAtBoundary(front, back);
    }
  }

  /**
   * Under the intended plan, the collisions the workers count add up to the
   * collisions of the whole file: no collision is split between two workers.
   */
  lemma IntendedPlanKeepsCollisions(lines: seq<Line>, workerCount: nat)
    requires workerCount >= 1
    ensures var r := IntendedStarts(lines, workerCount);
      CutsBetweenCollisions(lines, r) && PartCollisions(lines, r) == Collisions(lines)
  {
    var r := IntendedStarts(lines, workerCount);
    IntendedFromCuts(lines, workerCount, [0]);
    PartCollisionsAddUp(lines, r);
    assert lines[r[0]..] == lines;
  }

  // ------------------------------------------------ a plan that succeeds off the records

  /** Two records of different collisions: their collision-level prefixes differ in the first character. */
  const RECORD_A: RecordLine := seq(61, _ => 'a')
  const RECORD_B: RecordLine := seq(61, _ => 'b')

  /** Sixteen records of one collision followed by one record of another. */
  function MisalignedFile(): DataFile {
    DataFile(seq(16, _ => RECORD_A) + [RECORD_B])
  }

  /** The first sixteen lines of MisalignedFile are one collision and the last line starts another. */
  lemma MisalignedFileCollisions(f: DataFile)
    requires f == MisalignedFile()
    ensures |f.lines| == 17
    ensures forall j :: 0 <= j < 15 ==> SameCol(f.lines[j], f.lines[j + 1])
    ensures !SameCol(f.lines[15], f.lines[16])
  {
    SameColReflexive(RECORD_A);
    assert forall j :: 0 <= j < 16 ==> f.lines[j] == RECORD_A;
    assert f.lines[16] == RECORD_B;
    SameColOnRecords(RECORD_A, RECORD_B);
    assert RECORD_A[..LENGTH_COLL][0] != RECORD_B[..LENGTH_COLL][0];
  }

  /** The passes startPositions makes over MisalignedFile with eleven workers. */
  function MisalignedSteps(): seq<Step> {
    [Step(126, 13), Step(252, 24), Step(378, 33), Step(504, 40), Step(630, 45), Step(756, 48), Step(819, 50), Step(882, 51), Step(945, 51), Step(945, 51)]
  }

  /** The remaining size startPositions holds before pass w over MisalignedFile. */
  function SizeLeftBefore(w: nat): int
    requires w <= |MisalignedSteps()|
  {
    MisalignedFile().DataSize() - StartOf(MisalignedSteps(), if w == 0 then 0 else w - 1)
  }

  /** Rounding up a position strictly inside the record that ends at r gives r. */
  lemma AlignToNextRecord(x: int, r: int)
    requires 0 <= x && r % STRIDE == 0 && r - STRIDE <= x < r
    ensures Align(x) == r
  {
    var m := r / STRIDE;
    assert r == STRIDE * m;
    assert x / STRIDE == m - 1;
  }

  /** Pass w of startPositions over MisalignedFile with eleven workers. */
  lemma MisalignedPass(f: DataFile, w: nat)
    requires f == MisalignedFile() && w < |MisalignedSteps()|
    ensures PlanFrom(f, 11, MisalignedSteps()[..w], SizeLeftBefore(w))
         == PlanFrom(f, 11, MisalignedSteps()[..w + 1], SizeLeftBefore(w + 1))
  {
    var steps := MisalignedSteps();
    var prefix := steps[..w];
    assert steps[..w + 1] == prefix + [steps[w]];
    assert Before(prefix, w) == Before(steps, w);
    assert StartOf(prefix, w) == StartOf(steps, w);
    if w < 5 {
      MisalignedShareEarly(w);
    } else {
      MisalignedShareLate(w);
    }
    var a := steps[w].approxIndex;
    var q := a / STRIDE;
    MisalignedFileCollisions(f);
    ScanRunToBreak(f.lines, q, 15);
    assert ScanAt(f.lines, a) == Some(15 - q);
    assert Step(a, Before(prefix, w).offset + 15 - q) == steps[w];
    assert SizeLeftBefore(w + 1) == f.DataSize() - StartOf(prefix, w);
    PlanFromStep(f, 11, prefix, SizeLeftBefore(w), a, 15 - q);
  }

  /** The aligned share pass w computes over MisalignedFile, and the step it records. */
  lemma MisalignedShareEarly(w: nat)
    requires 0 <= w < 5
    ensures Align(Before(MisalignedSteps(), w).approxIndex + CDiv(SizeLeftBefore(w), 11 - w - 1)) == MisalignedSteps()[w].approxIndex
    ensures var step := MisalignedSteps()[w];
      && step.approxIndex == STRIDE * (step.approxIndex / STRIDE)
      && 1 <= step.approxIndex / STRIDE <= 15
      && step.offset == Before(MisalignedSteps(), w).offset + 15 - step.approxIndex / STRIDE
  {
    if w == 0 {
      assert MisalignedSteps()[w] == Step(126, 13) && Before(MisalignedSteps(), w) == Step(0, 0);
      assert SizeLeftBefore(w) == 1071 && CDiv(1071, 10) == 107;
      AlignToNextRecord(107, 126);
    } else if w == 1 {
      assert MisalignedSteps()[w] == Step(252, 24) && Before(MisalignedSteps(), w) == Step(126, 13);
      assert SizeLeftBefore(w) == 1071 && CDiv(1071, 9) == 119;
      AlignToNextRecord(245, 252);
    } else if w == 2 {
      assert MisalignedSteps()[w] == Step(378, 33) && Before(MisalignedSteps(), w) == Step(252, 24);
      assert SizeLeftBefore(w) == 785 && CDiv(785, 8) == 98;
      AlignToNextRecord(350, 378);
    } else if w == 3 {
      assert MisalignedSteps()[w] == Step(504, 40) && Before(MisalignedSteps(), w) == Step(378, 33);
      assert SizeLeftBefore(w) == 648 && CDiv(648, 7) == 92;
      AlignToNextRecord(470, 504);
    } else if w == 4 {
      assert MisalignedSteps()[w] == Step(630, 45) && Before(MisalignedSteps(), w) == Step(504, 40);
      assert SizeLeftBefore(w) == 513 && CDiv(513, 6) == 85;
      AlignToNextRecord(589, 630);
    }
  }

  /** The same for the later passes. */
  lemma MisalignedShareLate(w: nat)
    requires 5 <= w < 10
    ensures Align(Before(MisalignedSteps(), w).approxIndex + CDiv(SizeLeftBefore(w), 11 - w - 1)) == MisalignedSteps()[w].approxIndex
    ensures var step := MisalignedSteps()[w];
      && step.approxIndex == STRIDE * (step.approxIndex / STRIDE)
      && 1 <= step.approxIndex / STRIDE <= 15
      && step.offset == Before(MisalignedSteps(), w).offset + 15 - step.approxIndex / STRIDE
  {
    if w == 5 {
      assert MisalignedSteps()[w] == Step(756, 48) && Before(MisalignedSteps(), w) == Step(630, 45);
      assert SizeLeftBefore(w) == 380 && CDiv(380, 5) == 76;
      AlignToNextRecord(706, 756);
    } else if w == 6 {
      assert MisalignedSteps()[w] == Step(819, 50) && Before(MisalignedSteps(), w) == Step(756, 48);
      assert SizeLeftBefore(w) == 249 && CDiv(249, 4) == 62;
      AlignToNextRecord(818, 819);
    } else if w == 7 {
      assert MisalignedSteps()[w] == Step(882, 51) && Before(MisalignedSteps(), w) == Step(819, 50);
      assert SizeLeftBefore(w) == 120 && CDiv(120, 3) == 40;
      AlignToNextRecord(859, 882);
    } else if w == 8 {
      assert MisalignedSteps()[w] == Step(945, 51) && Before(MisalignedSteps(), w) == Step(882, 51);
      assert SizeLeftBefore(w) == 55 && CDiv(55, 2) == 27;
      AlignToNextRecord(909, 945);
    } else if w == 9 {
      assert MisalignedSteps()[w] == Step(945, 51) && Before(MisalignedSteps(), w) == Step(945, 51);
      assert SizeLeftBefore(w) == -9 && CDiv(-9, 1) == -9;
      AlignToNextRecord(936, 945);
    }
  }

  /**
   * A plan that completes and still starts the second worker off a record:
   * the 13 skipped lines are added to a byte position, giving 286, which is
   * 13 bytes into a record rather than the first record of the second
   * collision.
   */
  lemma MisalignedPlan(f: DataFile, steps: seq<Step>)
    requires f == MisalignedFile() && steps == MisalignedSteps()
    ensures Plan(f, 11) == Some(steps)
    ensures Indices(steps)[1] == 286 && (Indices(steps)[1] - DATA_START) % STRIDE != 0
  {
    assert SizeLeftBefore(0) == f.DataSize() && steps[..0] == [];
    calc {
      Plan(f, 11);
      PlanFrom(f, 11, steps[..0], SizeLeftBefore(0));
      { MisalignedPassesFrom(f, 0); }
      Some(steps);
    }
    MisalignedSecondPosition(steps);
  }

  /** The second worker's position under the plan over MisalignedFile. */
  lemma MisalignedSecondPosition(steps: seq<Step>)
    requires steps == MisalignedSteps()
    ensures Indices(steps)[1] == 286
  {
    assert steps[0] == Step(126, 13);
    assert Indices(steps)[1] == StartOf(steps, 1);
  }

  /** The passes of MisalignedPlan from pass w on. */
  lemma {:induction false} MisalignedPassesFrom(f: DataFile, w: nat)
    requires f == MisalignedFile() && w <= |MisalignedSteps()|
    ensures PlanFrom(f, 11, MisalignedSteps()[..w], SizeLeftBefore(w)) == Some(MisalignedSteps())
    decreases |MisalignedSteps()| - w
  {
    var steps := MisalignedSteps();
    if w == |steps| {
      assert steps[..w] == steps;
    } else {
      MisalignedPass(f, w);
      MisalignedPassesFrom(f, w + 1);
    }
  }
}
