/**
 * bang.c's Dataset and partDataset: read a run of lines, decode each into a
 * Record and count the collisions, starting a new one whenever sameCol fails
 * between a line and the one before it.
 *
 * As in the C code, addRecord and addIndex grow a local copy of the arrays
 * that is never stored back, so the dataset's record and index arrays stay
 * empty, and recNum is counted twice for every line read.
 */
module Datasets {
  import opened Layout
  import opened CLib
  import opened Collision
  import opened Records

  class Dataset {
    /** Number of collisions found. */
    var colNum: int
    /** Number of records counted. */
    var recNum: int
    /** Line offset of each collision; NULL in the C code is the empty sequence here. */
    var collisionIndex: seq<int>
    /** The decoded records; NULL in the C code is the empty sequence here. */
    var records: seq<Record>

    /** createDataset: both counters 0, both arrays absent. */
    constructor ()
      ensures colNum == 0 && recNum == 0
      ensures collisionIndex == [] && records == []
    {
      colNum := 0;
      recNum := 0;
      collisionIndex := [];
      records := [];
    }

    /**
     * addRecord: counts one more record. The enlarged array holding the new
     * record is a local of the C function and is lost on return, so the
     * dataset's own array is unchanged.
     */
    method AddRecord(record: Record)
      modifies this
      ensures recNum == old(recNum) + 1
      ensures colNum == old(colNum)
      ensures records == old(records) && collisionIndex == old(collisionIndex)
    {
      recNum := recNum + 1;
    }

    /**
     * addIndex: the enlarged index array is likewise a local that is lost,
     * so the dataset is left exactly as it was.
     */
    method AddIndex(index: int)
      ensures unchanged(this)
    {
    }
  }

  /**
   * The lines partDataset dereferences can be decoded: every line of the run
   * it reads holds the columns getRecord uses. When it is asked for more
   * lines than there are, the first read must succeed, or the buffer it
   * decodes was never filled.
   */
  ghost predicate Decodable(lines: seq<RecordLine>, count: int) {
    && (count > 0 ==> lines != [])
    && forall i {:trigger Decodes(lines[i])} :: 0 <= i < |lines| && i < count ==> Decodes(lines[i])
  }

  /** How many of the available lines a request for count lines reads: none for 0 or less, at most all of them. */
  function LinesRead(count: int, available: nat): (n: nat)
    ensures n <= available
    ensures count <= 0 ==> n == 0
    ensures 0 < count <= available ==> n == count
    ensures available < count ==> n == available
  {
    if count <= 0 then 0 else if count <= available then count else available
  }

  /**
   * partDataset: read readCount records from the current position (the given
   * lines), counting records and collisions. A readCount of 0 or less reads
   * nothing. Past the last record fread fails and leaves the buffer holding
   * the last record, so each further pass counts that record again (twice in
   * recNum) and, since it is in the same collision as itself, no collision.
   */
  method PartDataset(lines: seq<RecordLine>, readCount: int) returns (dataset: Dataset)
    requires Decodable(lines, readCount)
    ensures fresh(dataset)
    ensures dataset.colNum == Collisions(lines[..LinesRead(readCount, |lines|)])
    ensures dataset.recNum == 2 * (if readCount < 0 then 0 else readCount)
    ensures dataset.colNum <= dataset.recNum
    ensures dataset.collisionIndex == [] && dataset.records == []
  {
    dataset := new Dataset();
    var line: Line := [];
    var prevLine: Line := [];
    var i := 0;
    ghost var read: nat := 0;
    while i < readCount
      invariant 0 <= i && (readCount < 0 ==> i == 0) && (readCount >= 0 ==> i <= readCount)
      invariant read == LinesRead(i, |lines|)
      invariant i > 0 ==> 0 < read && line == lines[read - 1]
      invariant dataset.colNum == Collisions(lines[..read])
      invariant dataset.recNum == 2 * i
      invariant dataset.collisionIndex == [] && dataset.records == []
    {
      if i > 0 {
        prevLine := line;
      } else {
        dataset.colNum := 1;
      }
      // A read past the last record fails and leaves line as it was.
      if i < |lines| {
        line := lines[i];
      } else {
        SameColReflexive(line);
      }
      ghost var counted := Collisions(lines[..read]);
      ReadOneMore(lines, i);
      read := LinesRead(i + 1, |lines|);
      assert line == lines[read - 1] && Decodes(lines[read - 1]);
      assert Collisions(lines[..read]) == counted + (if i > 0 && !SameCol(prevLine, line) then 1 else 0) + (if i == 0 then 1 else 0);
      CountLine(dataset, prevLine, line, i == 0);
      i := i + 1;
    }
    PartDatasetCounts(lines, readCount);
  }

  /**
   * The rest of one pass of partDataset's loop, once the line is read: count
   * it, decode it and add the record, and count a new collision when sameCol
   * fails against the previous line.
   */
  method CountLine(dataset: Dataset, prevLine: Line, line: Line, first: bool)
    requires Decodes(line)
    modifies dataset
    ensures dataset.recNum == old(dataset.recNum) + 2
    ensures dataset.colNum == old(dataset.colNum) + (if !first && !SameCol(prevLine, line) then 1 else 0)
    ensures dataset.collisionIndex == old(dataset.collisionIndex) && dataset.records == old(dataset.records)
  {
    dataset.recNum := dataset.recNum + 1;
    var record := GetRecord(line);
    dataset.AddRecord(record);
    if !first {
      if !SameCol(prevLine, line) {
        dataset.colNum := dataset.colNum + 1;
        dataset.AddIndex(dataset.recNum);
      }
    }
  }

  /** One more pass of partDataset's loop adds a collision only when it reads a line that starts one. */
  lemma ReadOneMore(lines: seq<Line>, i: nat)
    requires i > 0 || lines != []
    ensures Collisions(lines[..LinesRead(i + 1, |lines|)])
         == Collisions(lines[..LinesRead(i, |lines|)]) + (if i < |lines| && (i == 0 || !SameCol(lines[i - 1], lines[i])) then 1 else 0)
  {
    if i < |lines| {
      CollisionsOfPrefix(lines, i);
    }
  }

  /** Reading line i adds a collision when it is the first line or sameCol fails against line i - 1. */
  lemma CollisionsOfPrefix(lines: seq<Line>, i: nat)
    requires i < |lines|
    ensures Collisions(lines[..i + 1]) == Collisions(lines[..i]) + (if i == 0 || !SameCol(lines[i - 1], lines[i]) then 1 else 0)
  {
    CollisionsSnoc(lines[..i], lines[i]);
    assert lines[..i] + [lines[i]] == lines[..i + 1];
  }

  /**
   * What partDataset reports: never more collisions than distinct lines read
   * and so than recNum, which counts every read twice, and at least one
   * collision if a line was read.
   */
  lemma PartDatasetCounts(lines: seq<Line>, readCount: int)
    ensures Collisions(lines[..LinesRead(readCount, |lines|)]) <= LinesRead(readCount, |lines|)
    ensures Collisions(lines[..LinesRead(readCount, |lines|)]) <= 2 * (if readCount < 0 then 0 else readCount)
    ensures readCount > 0 && lines != [] ==> Collisions(lines[..LinesRead(readCount, |lines|)]) >= 1
  {
    CollisionsBounds(lines[..LinesRead(readCount, |lines|)]);
  }
}
