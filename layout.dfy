/**
 * The fixed-width record file described by bang.h: layout constants, the
 * column numbers that getRecord extracts, and the Date struct.
 */
module Layout {

  /** Characters of one record, without its line terminator. */
  const SIZE_RECORD: int := 61
  /** Characters of the header line, without its line terminator. */
  const SIZE_HEADER: int := 145
  /** Width of the line terminator ("\r\n"). */
  const SIZE_EOL: int := 2
  /** Leading characters that hold the collision-level fields. */
  const LENGTH_COLL: int := 32
  /** Number of comma-separated columns getRecord walks over. */
  const COL_COUNT: int := 22

  const COL_CYEAR: int := 1
  const COL_MNTH: int := 2
  const COL_DAY: int := 3
  const COL_SEV: int := 5
  const COL_LOC: int := 8
  const COL_VYEAR: int := 15
  const COL_SEX: int := 17

  /** Bytes from the start of one record to the start of the next. */
  const STRIDE: int := SIZE_RECORD + SIZE_EOL
  /** Byte position of the first record: just after the header line. */
  const DATA_START: int := SIZE_HEADER + SIZE_EOL

  /** The columns getRecord stores, in the order it meets them. */
  const EXTRACTED: seq<int> := [COL_CYEAR, COL_MNTH, COL_DAY, COL_SEV, COL_LOC, COL_VYEAR, COL_SEX]

  /** One line of the data file: the record's characters, terminator removed. */
  type Line = seq<char>

  /**
   * A record as bang.c holds it after a read: the 61 characters before the
   * line terminator, which the code overwrites with a NUL, and no NUL among them.
   */
  type RecordLine = l: Line | |l| == SIZE_RECORD && '\0' !in l
    witness seq(61, _ => ' ')

  datatype Date = Date(year: int, month: int, day: int)

  /**
   * A well-formed data file: a header followed by whole 61-character
   * records, each with its 2-character terminator. Only the records' text is
   * kept; the header is represented by its size alone.
   */
  datatype DataFile = DataFile(lines: seq<RecordLine>) {
    /** What fileSize reports for this file. */
    function Size(): int {
      DATA_START + STRIDE * |lines|
    }
    /** The bytes after the header. */
    function DataSize(): int {
      STRIDE * |lines|
    }
  }

  /** The record stride and data start that bang.c's arithmetic relies on. */
  lemma StrideAndDataStart()
    ensures STRIDE == 63 && DATA_START == 147
    ensures forall f: DataFile :: f.Size() == DATA_START + f.DataSize()
  {
  }

  /** The collision prefix lies inside the record, before its terminating NUL. */
  lemma CollisionPrefixInsideRecord()
    ensures 0 < LENGTH_COLL < SIZE_RECORD
  {
  }

  /** Every extracted column is one getRecord's loop visits, and no two coincide. */
  lemma ExtractedColumnsDistinct()
    ensures forall i :: 0 <= i < |EXTRACTED| ==> 1 <= EXTRACTED[i] <= COL_COUNT
    ensures forall i, j :: 0 <= i < j < |EXTRACTED| ==> EXTRACTED[i] < EXTRACTED[j]
  {
  }
}
