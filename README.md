# async-mmap-experiments: the touch kernel and the trial driver

The benchmark reads eight files in several ways and times each way. Every
way "touches" every page: it reads one byte in every `STEP_SIZE` (512)
bytes and adds it into a wrapping `u8` accumulator. The ways are:
synchronous or asynchronous, through `read` calls into a 64 KiB buffer or
through a memory mapping, and sequential or parallel.

This project models the core of `src/main.rs`:

- `touch.dfy` (module `Touch`) covers `touch_buffer` and `touch_mm`.
  - `TouchBuffer` is a method with a `while` loop. Its result is proved
    against two specification functions: `Samples` (the touched bytes) and
    `End` (where the cursor stops).
  - The accumulator is a byte that wraps modulo 256.
  - An empty mapping makes `idx %= 0` panic. This is modelled as the
    outcome `Panicked(DivisionByZero)`.
- `sync_file.dfy` (module `SyncFile`) covers `touch_sync_file`.
  - A file is the sequence of what its successive `read` calls return. The
    loop stops at the first empty read.
  - `Step` and `Walk` state the source's carry, the cursor reduced modulo
    the read count.
  - `StepCarry` and `WalkCarry` state the carry its comment describes, the
    overshoot past the end of the chunk.
  - The stride property is proved for the source's carry when every read
    but the last returns at least `STEP_SIZE` bytes: the bytes touched are
    those of the whole file at offsets that are multiples of `STEP_SIZE`.
    For the overshoot carry it is proved however the file is cut into
    reads. A shorter read before the last breaks it as written (see
    "## Findings").
- `runners.dfy` (module `Runners`) covers `run_sequential_sync_mmap` (the
  sum and its assertion) and the other runners by their effect.
- `driver.dfy` (module `Driver`) covers `main`'s `match` from a
  configuration to a runner and the five nested trial loops. It proves
  which CSV rows those loops print, and in which order.

The asynchronous file runner uses the same loop as `touch_sync_file` over
`tokio` reads. So `TouchFiles` stands for `run_sequential_sync_file`,
`run_sync_file`, `run_sequential_async_file` and `run_async_file` alike.
`RunSyncMmap` stands for `run_sync_mmap` and `run_async_mmap`.

## Model

| member | source | states |
|---|---|---|
| Touch.AddU8 | src/main.rs:10 | `sum += byte` on `u8` wraps: the result is the exact sum or the exact sum minus 256 |
| Touch.ByteSumAppend | src/main.rs:9-12 | accumulating two runs of bytes in turn is adding their two wrapping sums |
| Touch.End | src/main.rs:9-11 | a cursor stepping by STEP_SIZE stops at or past the buffer end, less than one step past it when it started inside, and where it started when it started outside |
| Touch.SamplesAt | src/main.rs:9-12 | the touched bytes are exactly the buffer's bytes at idx, idx + STEP_SIZE, ... below `read`, in order, and their count fixes where the cursor stops |
| Touch.SamplesSplit | src/main.rs:9-12 | walking a + b is walking a, then walking b from where the walk over a overshot it |
| Touch.SamplesShift | src/main.rs:9-12 | a cursor already past a touches in a + b what it touches in b, shifted by the length of a |
| Touch.EndSplit | src/main.rs:9-11 | where a walk over n + m bytes stops is where a walk over m bytes from the overshoot of n stops, shifted by n |
| Touch.EndShift | src/main.rs:9-11 | shifting the start and the length of a walk by the same amount shifts where it stops |
| Touch.ZeroSamples | src/main.rs:9-12 | over a buffer of zero bytes the walk adds 0 |
| Touch.TouchBuffer | src/main.rs:8-15 | the new sum is the old sum plus the wrapping sum of the bytes at idx, idx + STEP_SIZE, ... below `read`; the new cursor is where the walk stopped reduced modulo `read`, so it is below `read` |
| Touch.CarryIsOvershoot | src/main.rs:13-14 | when the walk starts inside the buffer and the buffer holds at least one step, the reduced cursor equals the overshoot past the end, less than one step |
| Touch.TouchPastEnd | src/main.rs:9-14 | a cursor at or past `read` touches nothing and is only reduced modulo `read` |
| Touch.AlignedWalk | src/main.rs:9-12 | from a step boundary of a buffer a whole number of steps long, one byte per remaining step is touched and the walk stops exactly at the end |
| Touch.FullChunk | src/main.rs:4-15 | a full 64 KiB read walked from 0 touches 128 bytes and leaves the cursor at 0 |
| Touch.TouchMm | src/main.rs:17-21 | an empty mapping panics dividing by zero; otherwise the result is the wrapping sum of the mapping's bytes at multiples of STEP_SIZE |
| SyncFile.Live | src/main.rs:46-50 | the consumed reads are a prefix of the reads, all non-empty, ending at the end of the reads or at an empty read |
| SyncFile.LiveIsPrefix | src/main.rs:46-50 | the consumed prefix is the one that ends at the first empty read |
| SyncFile.WalkSnoc | src/main.rs:46-52 | one more non-empty read is one more call of touch_buffer on the carried cursor and sum |
| SyncFile.TouchSyncFile | src/main.rs:42-54 | the returned sum is the walk of touch_buffer over the reads before the first empty one, from cursor 0 and sum 0 |
| SyncFile.WalkCarrySamplesStream | src/main.rs:13-14 | with the overshoot carried, the sum is the wrapping sum of the whole stream's bytes at multiples of STEP_SIZE however it is cut into reads, and the cursor is the overshoot of a walk over the whole stream |
| SyncFile.CarryStep | src/main.rs:51 | with the overshoot carried, one more read continues the walk over the stream where the previous reads left it |
| SyncFile.WalkAgreesOnLongChunks | src/main.rs:14 | as written, the carry equals the overshoot when every read holds at least STEP_SIZE bytes |
| SyncFile.StrideSampling | src/main.rs:42-54 | when every read but the last holds at least STEP_SIZE bytes, the file's sum is the wrapping sum of its bytes at offsets 0, 512, 1024, ... |
| SyncFile.FileSumSamplesStream | src/main.rs:42-54 | the same stride property for the value touch_sync_file returns |
| SyncFile.ZeroFile | src/main.rs:42-54 | a file of zero bytes sums to 0 however it is read |
| SyncFile.ShortReadShiftsStride | src/main.rs:14 | reads of 100 zero bytes then 1000 bytes with a 1 at offset 12: as written the sum is 1, while the stream's bytes at multiples of STEP_SIZE sum to 0, and so does the overshoot carry |
| SyncFile.ShortReadAsWritten | src/main.rs:14 | as written, the second read is walked from 512 % 100 = 12 and picks up the 1 |
| SyncFile.ShortReadStream | src/main.rs:9-14 | the stream's bytes at multiples of STEP_SIZE in the counterexample are all zero |
| Runners.RunSequentialSyncMmap | src/main.rs:23-29 | the run panics dividing by zero at the first empty mapping; otherwise it completes exactly when the wrapping total of touch_mm over the mappings is 0, and fails the assertion with that total otherwise |
| Runners.ZeroMappingsPass | src/main.rs:23-28 | when every mapping is non-empty and all zero, the assertion holds and the run completes |
| Runners.ZeroMappingsSum | src/main.rs:25-27 | the total over all-zero mappings is 0 |
| Runners.RunSyncMmap | src/main.rs:31-40 | the run completes exactly when every mapping is non-empty, and any panic is the division by zero |
| Runners.TouchFiles | src/main.rs:56-71 | every file is touched with touch_sync_file, and the value for each file is that file's sum |
| Driver.Dispatch | src/main.rs:140-150 | exactly the configuration async, mmap and not parallel has no runner; every other configuration picks the runner made for it |
| Driver.DispatchReachesEveryRunner | src/main.rs:140-150 | each of the seven runners is chosen by its own configuration, so the match is one-to-one |
| Driver.TrialAtDigits | src/main.rs:121-125 | the loop variables of the trial at a flat position are that position's digits, each loop trying true first |
| Driver.PositionOfTrial | src/main.rs:121-125 | every flat position is the position of its own trial |
| Driver.TrialAtPosition | src/main.rs:121-125 | every row is the trial at its own position |
| Driver.PrintedStep | src/main.rs:140-154 | one more trial prints its row unless its configuration is skipped |
| Driver.RunBenchmark | src/main.rs:120-159 | when every trial completes, the loops print the rows of the non-skipped trials in loop order: 14 per repeat, 140 in all |
| Driver.SkippedOffsets | src/main.rs:122-148 | a trial is skipped exactly at offsets 2 and 3 of its repeat |
| Driver.PrintedCount | src/main.rs:121-154 | the number of rows printed before a position is that position minus the skipped trials before it |
| Driver.PrintedMembers | src/main.rs:121-154 | a row is printed before a position exactly when its trial comes before that position and is not skipped |
| Driver.PrintedOrdered | src/main.rs:121-154 | rows come out in strictly increasing loop order, so none is printed twice |
| Driver.Schedule | src/main.rs:121-154 | the printed rows are distinct, and they are exactly one per repeat below 10, cache state and implemented configuration |

## Left out

- Threads, `tokio` and `join_all`: the parallel and asynchronous runners are modelled by their effect, as if they ran in turn. Scheduling does not change the values they compute.
- Runners.RunSyncMmap: a panic in a spawned thread surfaces only at its `join().unwrap()`. The model stops at the first empty mapping, so it does not capture the other threads running to completion first.
- Runners.TouchFiles: opening the files, `read` errors and the resulting `unwrap` panics are not modelled. The value each call returns is kept, although the source discards it.
- Touch.TouchBuffer: the byte addition is the release build's wrap-around. A debug build panics on overflow instead, and that is not modelled. `usize` overflow of the cursor is not modelled either, because the cursor stays below the read count plus one step.
- SyncFile.TouchSyncFile: that a `read` returns at most the buffer's 65536 bytes is a guarantee of `Read::read`. The model states it as a precondition on the reads the loop consumes. The bytes a short read leaves behind in the buffer are never touched and not modelled.
- Driver.RunBenchmark: the driver assumes that every trial's opening of `file.1` to `file.8`, their mapping and the chosen runner all complete. In the source a panic in any of them ends `main` before the remaining rows are printed. Examples are `run_sequential_sync_mmap`'s assertion failing on a file that is not all zero, or `touch_mm` on an empty file. The model does not run the runner inside the loops, so it does not capture a run cut short. The runners' own panics are modelled in `Runners`.
- Memory mapping (`memmap2::Mmap::map`): a mapping is a read-only byte array holding the file's contents.
- `drop_caches`, the `sync` and `purge` commands, and page-cache state are not modelled.
- The clock, the measured duration and the CSV text are not modelled. A `Row` carries the five non-duration columns, and the header line is not modelled.
- `summarise.py` and the data pipeline around the benchmark (labelling, aggregation, plots) are not part of this model.

## Findings

| source | as written | input that shows it | evidently intended | confidence | as-written member | corrected member |
|---|---|---|---|---|---|---|
| src/main.rs:13-14 | the cursor carried to the next read is `idx % read` | a file whose first read returns 100 bytes and whose second returns 1000 bytes: the second read is walked from 12 instead of 412, so stream offset 112 is touched and offsets 512 and 1024 are not | the carry is the overshoot `idx - read`, so the touched bytes are those of the whole stream at multiples of STEP_SIZE | not executed; regular files return short reads mostly at end of file, where the carry no longer matters | SyncFile.ShortReadShiftsStride | SyncFile.WalkCarrySamplesStream |
