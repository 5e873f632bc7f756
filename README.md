# bang: collision records, grouping and work partitioning

This project models the record logic of `bang.c` and `bang.h`, a C program
that reads a fixed-width CSV file of traffic-collision records. Every data
line is one person or vehicle in a collision. Consecutive lines belong to
the same collision when their first 32 characters (the collision-level
fields) agree. The program:

- decodes a line into a `Record` (date, severity, location, vehicle year, sex);
- counts records and collisions over a run of lines (`partDataset`);
- plans where each of several workers should start reading (`startPositions`), so that the file can be split between them.

The file is modelled as `Layout.DataFile`, the sequence of its record lines.
Each is a `Layout.RecordLine`: the 61 characters of a record, with no NUL among
them, which is what the code keeps once it writes a NUL over the line end.
The file's layout:

- its size is the header (145 characters plus a 2-character line end) plus 63 bytes per record;
- seeking to data byte `b` and reading a line is indexing the lines at `b / 63`.

The C library calls the code relies on are modelled in `CLib`:

- strings end at their first NUL;
- `strncmp` stops at the first difference or at a shared terminator;
- `strtok` on `","` skips empty fields;
- `strtol` in base 10 skips white space, takes an optional sign and reads the leading digits, or gives 0;
- `int` division truncates toward zero.

Where the code updates state it stays imperative:

- `Records.Record` and `Datasets.Dataset` are classes; their constructors are `createRecord` and `createDataset`.
- `GetRecord` walks the columns in a loop, threading `strtok`'s hidden position through as a value.
- `PartDataset` updates the dataset's counters line by line.
- `StartPositions` fills an array in a loop whose inner loop scans one collision.

Each method is proved against a specification function:

- `Collisions`, which counts the lines on which `sameCol` fails;
- `Plan`, the passes of `startPositions` as a recursive function;
- `ScanAt`, the scan of one collision.

The properties are then proved about those functions.

The model keeps the behaviour of the code as written:

- `recNum` grows by two for every line, once in `partDataset` and once in `addRecord`.
- `addRecord` and `addIndex` grow a local copy of an array and lose it, so a dataset's `records` and `collisionIndex` stay empty.
- In `startPositions`:
  - the skipped-line counter `offset` is never reset and is added to a byte position;
  - the remaining size is taken from the previous worker's position;
  - `index[0]` is 0 without the header.
- `getRecord` works on a copy of its line; in the model lines are values, so the caller's line cannot change.

"## Findings" lists the consequences of the `startPositions` arithmetic. It also gives a corrected planner, `Planner.IntendedStarts`, with its properties proved.

## Model

| member | source | states |
|---|---|---|
| Layout.StrideAndDataStart | bang.h:7-9 | one record plus its line end is 63 bytes; the data starts at byte 147; a file's size is the data start plus its data size |
| Layout.CollisionPrefixInsideRecord | bang.h:7-10 | the 32-character collision prefix is non-empty and shorter than a 61-character record, so it ends before the record's terminator |
| Layout.ExtractedColumnsDistinct | bang.h:11-18 | every column getRecord extracts lies in 1..22 and they strictly increase |
| CLib.CStr | bang.c:280-281 | the C string in a buffer is a NUL-free prefix of it, ending where the buffer ends or at its first NUL |
| CLib.NoNulIsWholeString | bang.c:280-281 | a buffer with no NUL is its own C string |
| CLib.StrNEqualIffPrefixesAgree | bang.c:209 | the contract of `StrNEqual`: strncmp over n characters reports equality exactly when the first n characters of the two C strings agree (both directions) |
| CLib.StrTok | bang.c:164 | strtok finds no token exactly when only commas remain; a token it finds is non-empty and comma-free, and the text left is shorter |
| CLib.Tokens | bang.c:164-201 | every token that repeated strtok calls hand out is non-empty and comma-free |
| CLib.StrTokField | bang.c:164 | on a non-empty comma-free field followed by a comma, strtok returns that field and resumes after the comma |
| CLib.TokensOfJoin | bang.c:164-201 | tokenizing fields joined by commas gives back exactly those fields, when none is empty or holds a comma |
| CLib.TokensSkipEmptyField | bang.c:201 | an empty field (a leading comma) adds no token |
| CLib.StrtolReadsLeadingDigits | bang.c:172-192 | strtol of a digit string followed by a non-digit is the value of the digits |
| CLib.StrtolOfDecimal | bang.c:172-192 | strtol reads back the decimal numeral of n as n, and with a minus sign as -n |
| CLib.Strtol | bang.c:172-192 | strtol of a field without any digit, an empty one included, is 0 |
| CLib.StrtolWithoutDigits | bang.c:192 | a field that does not start with a digit, sign or white space reads as 0 |
| CLib.CDivRem | bang.c:44 | the contract of `CDiv` and `CRem`: C's / and % by a positive divisor: quotient times divisor plus remainder is the dividend, the remainder is smaller than the divisor and has the dividend's sign, and so does the quotient |
| Collision.SameColIffSameKey | bang.c:208-210 | the contract of `SameCol`: sameCol holds exactly when the two lines' 32-character collision keys are equal |
| Collision.SameColOnRecords | bang.c:208-210 | on 61-character NUL-free records, sameCol holds exactly when the first 32 characters are equal |
| Collision.SameColReflexive | bang.c:208-210 | every line is in the same collision as itself |
| Collision.SameColSymmetric | bang.c:208-210 | sameCol does not depend on the order of its arguments |
| Collision.SameColTransitive | bang.c:208-210 | two lines in the same collision as a third are in the same collision |
| Collision.CollisionsSnoc | bang.c:288-297 | reading one more line adds a collision exactly when that line is the first or sameCol fails against the line before |
| Collision.CollisionsCountStarts | bang.c:269-298 | the collision count is the number of lines that start a collision: the first line and every line on which sameCol fails against its predecessor |
| Collision.CollisionsBounds | bang.c:269-298 | never more collisions than lines, and at least one when any line is read |
| Collision.CollisionsSplitAtBoundary | bang.c:269-298 | cutting a run of lines where one collision ends and the next begins splits the count between the two parts |
| Collision.CollisionsSplitInsideCollision | bang.c:269-298 | cutting inside a collision counts that collision in both parts, one more than the whole |
| Records.Record.constructor | bang.c:137-145 | createRecord's defaults: date 0/0/0, gender ' ', vehicle year 0, no death, and an empty location |
| Records.TokenStreamAdvance | bang.c:200-201 | each strtok(NULL, ",") call hands out the next token of the line and leaves the rest |
| Records.TokenStreamExhausted | bang.c:200-201 | once the tokens are used up, strtok finds none |
| Records.LineTokens | bang.c:163-164 | a line made of non-empty, comma-free, NUL-free fields joined by commas tokenizes back into those fields |
| Records.GetRecord | bang.c:155-206 | year, month and day are strtol of tokens 1-3; death holds iff token 5 starts with '1'; location is token 8; vehicle year is strtol of token 15; gender is token 17's first character |
| Datasets.Dataset.constructor | bang.c:250-256 | createDataset: both counters 0 and both arrays absent |
| Datasets.Dataset.AddRecord | bang.c:221-235 | adds one to recNum and changes nothing else: the enlarged array is not stored |
| Datasets.Dataset.AddIndex | bang.c:237-248 | leaves the dataset unchanged: the enlarged array is not stored |
| Datasets.PartDataset | bang.c:258-300 | recNum is twice readCount (twice 0 if it is negative), counting a read past the last line, which leaves the last line in the buffer; colNum is the collision count of the distinct lines read, since a repeated line starts no collision; so colNum never exceeds recNum; both arrays stay empty |
| Datasets.CountLine | bang.c:283-297 | one line's work: recNum grows by two, colNum by one when the line is not the first and sameCol fails against the previous line, and the arrays stay as they were |
| Datasets.ReadOneMore | bang.c:269-298 | one more read adds a collision exactly when it reaches a new line that is the first or that sameCol separates from the line before; a read past the end adds none |
| Datasets.CollisionsOfPrefix | bang.c:273-297 | line i adds one collision to the count so far exactly when it is the first line or sameCol fails against line i - 1 |
| Datasets.PartDatasetCounts | bang.c:269-298 | what partDataset reports: never more collisions than distinct lines read, and so never more than recNum, twice readCount; at least one collision when a line was read |
| Planner.CountRecords | bang.c:43-45 | the count n of whole 63-byte records after the 147-byte header: the header plus n records fits in the file and one more record does not (bounded the same way, truncated toward zero, for sizes below the header) |
| Planner.CountRecordsOfFile | bang.c:43-45 | a file of 147 + 63n bytes holds n records |
| Planner.Align | bang.c:66 | alignment gives a multiple of 63 strictly above a non-negative index by at most 63, so an aligned index still moves a whole record; a negative index is moved up by at least 63 and less than 126 |
| Planner.ScanRunEndsCollision | bang.c:77-84 | the contract of `ScanRun`: a scan from line i that stops after k steps has passed only lines in line i's collision, and line i + k + 1 is the first line outside it |
| Planner.ScanRunReachesEnd | bang.c:77-84 | a scan that runs off the end does so because line i's collision lasts to the last line |
| Planner.ScanRunToBreak | bang.c:79-84 | over lines that stay in one collision from line i to line e, where sameCol fails against line e + 1, the scan stops after e - i steps |
| Planner.PastLastRecord | bang.c:69-75 | a seek past the last record reads outside the data |
| Planner.SkipCollision | bang.c:68-84 | the seek and scan loop returns what `ScanAt` specifies: how many following lines are in the collision of the record at the index, or nothing if it reads outside the data |
| Planner.StartPositions | bang.c:47-90 | the index array is Indices of the passes Plan specifies, or nothing if a pass reads outside the data |
| Planner.PlanFrom | bang.c:63-87 | the outer loop, continued from any pass, either reads outside the data or completes with one step per worker after the first |
| Planner.Plan | bang.c:63-87 | a plan that completes has one step for each worker after the first |
| Planner.PlanPositions | bang.c:52-86 | one position per worker. The first is 0. Each later one is its pass's aligned approximate index plus the running offset plus 147. Every approximate index is a non-negative multiple of 63, and the running offset never decreases |
| Planner.PlanPassSkipsCollision | bang.c:77-84 | each pass adds to the running offset exactly the number of lines after the seeked record that are in its collision; the line after them is in another collision |
| Planner.PlanPositionOffRecord | bang.c:85 | a later worker's position lies as far into a record as the running offset modulo 63 |
| Planner.TwoWorkersOverrun | bang.c:63-69 | with two workers the plan reads past the data for every file |
| Planner.ThreeWorkersOverrun | bang.c:63-86 | with three workers the plan reads past the data for every file |
| Planner.MisalignedPlan | bang.c:85 | over 16 records of one collision and 1 of another, the plan for 11 workers completes, and the second worker's position is 286, 13 bytes into a record |
| Planner.NextBoundary | bang.c:77-85 | the first line at or after i that starts a collision, or the end; no line in between starts one |
| Planner.IntendedStarts | bang.c:47-90 | the corrected plan gives one start per worker, the first at record 0 |
| Planner.IntendedStartsCutBetweenCollisions | bang.c:47-90 | the corrected plan gives every worker a start. The first is record 0, the starts never go back, and each later start that is not the end comes right after a sameCol failure |
| Planner.IntendedPositionsOnRecords | bang.c:60-85 | the corrected positions are whole records after the header, the first at byte 147, all inside the file |
| Planner.PartCollisionsAddUp | bang.c:258-300 | when the cuts fall between collisions, the workers' collision counts add up to the count of one run from the first start |
| Planner.IntendedPlanKeepsCollisions | bang.c:47-90 | under the corrected plan, the collisions the workers count add up to the collisions of the whole file |

## Left out

- `main`, `fileSize` and `printRecord` are left out. They only handle `argv`, `fopen`/`fseek`/`ftell`/`fclose` and `printf`. `main` also reads `argv[2]` before checking `argc`.
- `getDataset` is unfinished dead code and is left out:
  - it discards the lengths it computes;
  - it passes a byte difference as a record count;
  - it reads `position[workerCount]`, one past the end;
  - it returns `NULL`.
- The file is a well-formed header followed by whole records. Only the records' text is kept; the header's text is not. `CountRecords` still takes any size.
- StartPositions: where the C code would read before the first record or past the last one, the model returns no index array. In C, `fread` then leaves stale buffers. If they hold a pair that `sameCol` joins, the scan can loop forever. If they hold the pair on which the previous scan stopped, as when a later seek lands wholly past the data, the loop ends at once and returns a position outside the file.
- StartPositions: requires at least one worker. The model's array holds all `workerCount` positions, while the C code allocates `workerCount - 1` ints and writes `workerCount`.
- StartPositions: the scan buffers are 62 characters, but each read writes 63 into them, one byte too many. This overflow is not modelled.
- Records.Record.constructor: the C code leaves `location` uninitialised; the model starts it empty.
- Records.GetRecord: `location` is a `char[2]` in C that receives a whole token with `strcpy`. The model keeps the whole token.
- Records.GetRecord: requires at least 17 tokens, because the C code dereferences a NULL token otherwise.
- Datasets.PartDataset: requires every line it reads to have at least 17 tokens, for the same reason.
- Datasets.PartDataset: requires at least one line when readCount is positive. With no line at all, the C code decodes a buffer that was never written.
- Memory: `malloc`/`realloc` results that are never freed or stored are not modelled; only their effect on the dataset's fields is.
- Datasets.PartDataset: the seek to `startPos` is left to the caller, which passes the lines from that position on.
- Integers are unbounded. `int` overflow of file sizes and positions is not modelled, and neither are `strtol`'s overflow and `errno`.

## Findings

| source | as written | input that shows it | evidently intended | confidence | as-written member | corrected member |
|---|---|---|---|---|---|---|
| bang.c:65-86 | the share of pass w divides the remaining size by workerCount - w - 1, so the last pass adds all of it to an index that is already past 0; the remaining size is also taken from the previous worker's position | any file with workerCount 2 or 3: the aligned index lies past the last record | each worker starts at a collision boundary inside the data, after a share of the records left | not executed | Planner.TwoWorkersOverrun | Planner.IntendedStartsCutBetweenCollisions |
| bang.c:85 | the running offset, a count of skipped lines, is added to a byte position | 16 records of one collision then 1 of another, 11 workers: the second position is 286, 13 bytes into a record | a worker starts on the first record of a collision, at byte 147 + 63j | not executed | Planner.MisalignedPlan | Planner.IntendedPositionsOnRecords |
| bang.c:60 | the first position is 0, without the header, while later positions include it | any file: index[0] is 0, inside the header | the first worker starts at the first record, byte 147 | not executed | Planner.PlanPositions | Planner.IntendedPositionsOnRecords |
