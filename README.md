# YATPool in Dafny

A Dafny model of the sequential core of YATPool ("Yet Another Thread Pool",
C) and of its two CSV-writing example programs. It has four modules:

- `YatPool` (`yatpool.dfy`) models the pool engine:
  - the bounded task queue, a class over an array whose `Pop` shifts the slots left in place;
  - `task_init`;
  - the pool's bookkeeping, which is the result slots, the completion counter, the declared task count and the done flag.

  The two locked sections of the C code are each one atomic step: the completion step of `_yatpool_execute` and one turn of the worker loop. `yatpool_init`, `yatpool_reset` and `yatpool_pool_size` take no lock; the model also treats each of them as one atomic step, so a reset racing a worker is not modelled. A value model (`Batch`, `QueuePut`/`PutAll`/`PopN`) states FIFO order, the size bound and "each result slot written once".
- `Csv` (`csv.dfy`) holds what the serial and the threaded writer share:
  - `%d` formatting;
  - one generated line: NCOLS fields `value,` whose last comma becomes a newline;
  - the length-carrying `String` record, with `string_create` and `strncpy`;
  - `memcpy` into the output buffer, with the copy-loop invariant both writers use.
- `SerialWrite` (`serial_write.dfy`) models the serial program. It generates the lines while summing `file_size`, then copies them back to back into a buffer of that size.
- `ThreadedWrite` (`threaded_write.dfy`) models the threaded program.
  - Lines are split into chunks of `fac = 8 * num_threads` lines.
  - Three pool rounds follow: generate each chunk, sum each chunk's byte length (`get_offset`), and, after the in-place prefix sum, copy each chunk at its offset (`write_to_file`).
  - A round runs its tasks one after another in an arbitrary schedule (`order`, each chunk index once).
  - The proofs show that each task touches only its own lines, its own offset slot or its own byte range. So, whatever values each line drew, the final buffer is the lines' texts in line order for every schedule. With line k's row of values given as `rands[k]`, that is `FileText(rands)`, the text the serial writer builds from the same rows.

The values `rand()` returns are inputs (`rands`, one row of NCOLS values per line).

## Model

| member | source | states |
|---|---|---|
| YatPool.TaskQueue.constructor | src/yatpool.c:46-54 | taskqueue_init: capacity `length` (> 0, the assert), every slot NULL, size 0, empty contents |
| YatPool.TaskQueue.Put | src/yatpool.c:57-73 | succeeds iff the value is non-NULL and `curr_size + 1 <= length`. On success: slot `curr_size` takes the value, no other slot changes, the size grows by one, and the contents gain the value at the tail. On failure nothing changes. The capacity bound is kept (`Valid`) |
| YatPool.TaskQueue.Size | src/yatpool.c:76-79 | the number of pending values, never above the capacity |
| YatPool.TaskQueue.Get | src/yatpool.c:82-88 | NULL on an empty queue, otherwise the oldest pending value; reads only |
| YatPool.TaskQueue.Pop | src/yatpool.c:92-104 | empty queue: returns NULL and changes nothing. Otherwise: returns the old head, the array becomes old `data[1..curr_size)` followed by the untouched tail, the size drops by one, and the contents lose their head |
| YatPool.TaskQueue.Empty | src/yatpool.c:107-110 | true exactly when nothing is pending |
| YatPool.TaskQueue.Full | src/yatpool.c:113-116 | true exactly when the size equals the capacity |
| YatPool.TaskQueue.Clear | src/yatpool.c:119-124 | size 0, nothing pending, the capacity bound kept |
| YatPool.PutAllBounded | src/yatpool.c:66-70 | no sequence of puts takes the queue past its capacity |
| YatPool.PutAllAppends | src/yatpool.c:57-73 | puts within capacity append their values in order |
| YatPool.PopAllInOrder | src/yatpool.c:92-104 | popping a whole queue yields its values in queue order |
| YatPool.Fifo | src/yatpool.c:57-104 | values put into an empty queue within capacity are popped in the order they were put |
| YatPool.TaskInit | src/yatpool.c:161-175 | a task is built iff `taskfunc` is non-NULL, and it holds exactly the given function, argument and destructor |
| YatPool.InitBatch | src/yatpool.c:266-277 | the batch set up by yatpool_init: `num_tasks` NULL slots, completed 0, not done, consistent when `num_tasks >= 1` |
| YatPool.Record | src/yatpool.c:192-199 | one completion keeps the bookkeeping consistent: the slot count matches, the counter stays within it, done iff `completed >= total_tasks` |
| YatPool.RecordAllFromFresh | src/yatpool.c:192-199 | from a fresh batch of T tasks, k <= T completions fill slots 0..k-1 with the results in completion order, each slot once, leave the other slots NULL, and set done exactly when k == T |
| YatPool.ConsistentCompletionInBounds | src/yatpool.c:193-198 | in a consistent batch that is not done, the slot the next completion writes lies inside the results array |
| YatPool.ResetAsWritten | src/yatpool.c:344-357 | yatpool_reset as written: the counter, the declared count and done are reset, and the result slots are the old ones |
| YatPool.ResetAsWrittenOverrunsResults | src/yatpool.c:344-357 | init for 1 task, complete it, reset to 2 as written, complete once more: the pool is not done, yet the next completion's slot (index 1) is past the one-slot array |
| YatPool.ResetBatch | src/yatpool.c:344-357 | the corrected reset: a consistent batch with completed 0, the new declared count and done false |
| YatPool.Pool.constructor | src/yatpool.c:251-280 | yatpool_init with non-zero counts: pool size set, the queue has capacity MAX_QUEUE_SIZE and is empty, the bookkeeping equals InitBatch(num_tasks) |
| YatPool.Pool.PoolSize | src/yatpool.c:360-366 | the thread count the pool was built with, which is positive |
| YatPool.Pool.Complete | src/yatpool.c:192-199 | as Record: the result is stored at index `completed`, the counter goes up, done is set once `completed >= total_tasks`, and the invariant is kept |
| YatPool.Pool.WorkerStep | src/yatpool.c:216-231 | done: exit with nothing changed. Queue empty and not done: wait with nothing changed. Otherwise: run the old head, the queue loses its head, and slot-available is signalled iff the pop emptied the queue |
| YatPool.Pool.Reset | src/yatpool.c:344-357 | refused with nothing changed when `num_tasks == 0` or the batch is not done. Otherwise the queue is empty, completed 0, done false, the declared count is new, a fresh results array is sized to it, and the pool size is unchanged |
| Csv.Decimal | examples/writing_to_file_serial.c:70 | `%d` of a non-negative value: at least one character, all digits |
| Csv.DecimalRoundTrip | examples/writing_to_file_serial.c:70 | reading the digits of `%d` back gives the value |
| Csv.DecimalLength | examples/writing_to_file_serial.c:70 | a value below NCOLS prints in 1 digit (below 10) or 2 |
| Csv.Field | examples/writing_to_file_serial.c:68-71 | `"%d,"` of `rand() % NCOLS`: the digits then a comma, 2 or 3 characters, fitting num_str with its NUL |
| Csv.Fields | examples/writing_to_file_serial.c:67-80 | the column loop's buffer: between 2 and 3 characters per value, only digits and commas, and it ends in a comma |
| Csv.Columns | examples/writing_to_file_serial.c:70 | the printed values are the inputs modulo NCOLS, each below NCOLS |
| Csv.FieldsAreJoined | examples/writing_to_file_serial.c:67-80 | the fields are the values joined by ',' plus a trailing comma |
| Csv.LineText | examples/writing_to_file_serial.c:81 | the line is the fields buffer with only its last character, the trailing comma, overwritten by a newline |
| Csv.LineIsJoined | examples/writing_to_file_serial.c:67-81 | a line is the values joined by ',' and ended by '\n' |
| Csv.LineFormat | examples/writing_to_file_serial.c:67-85 | a line ends in '\n', holds NCOLS - 1 commas and one newline, only digits, commas and that newline, and has between 2 * NCOLS and 3 * NCOLS characters |
| Csv.StrNCopy | examples/writing_to_file_serial.c:49 | strncpy: exactly n characters, each copied or NUL padding, and a plain copy when the first n source characters hold no NUL |
| Csv.StringCreate | examples/writing_to_file_serial.c:41-52 | `length` bytes then a NUL at index `length`, `res.length == length`, and the payload is the source prefix when it has no NUL |
| Csv.GenerateLine | examples/writing_to_file_serial.c:64-88 | generate_line, also the line body of generate_lines: the String is well formed and its bytes are the line text `LineText(rands)` |
| Csv.FlattenLength | examples/writing_to_file_serial.c:103-108 | the lines written back to back take exactly the sum of their lengths |
| Csv.Memcpy | examples/writing_to_file_serial.c:140 | exactly `[at, at + n)` changes, and it now holds the source bytes |
| Csv.CopyLine | examples/writing_to_file_serial.c:140-141 | one copy step: line i lands at `offset + running_total_bytes`, so lines start..i are in place, the bytes around them keep their old values, and the running total grows by the line's length |
| Csv.CopyStep | examples/writing_to_file_serial.c:140-141 | copying line i right after lines start..i-1 extends the copied run by that line and leaves the rest of the buffer as it was |
| Csv.LinesText | examples/writing_to_file_serial.c:105-106 | lines made from the rows of random values, written back to back, are the file text |
| SerialWrite.GenerateData | examples/writing_to_file_serial.c:103-108 | line i is the text of the i-th row, every String is well formed, and `file_size` is the sum of the line lengths |
| SerialWrite.CopyLines | examples/writing_to_file_serial.c:137-143 | `running_total_bytes == file_size`, and the buffer is the lines concatenated in order |
| SerialWrite.SerialWrite | examples/writing_to_file_serial.c:103-143 | the serial program's buffer is exactly `FileText(rands)` |
| ThreadedWrite.NumTasks | examples/writing_to_file_threaded.c:248-250 | the ceiling of num_lines / fac: at least 1 when there is a line, 0 when there is none |
| ThreadedWrite.ChunkStart | examples/writing_to_file_threaded.c:258 | `start_lineno` of chunk i is a multiple of fac, and dividing it by fac gives back i |
| ThreadedWrite.ChunkEnd | examples/writing_to_file_threaded.c:259-260 | `end_lineno` of chunk i is the smaller of fac*(i+1) and num_lines: it exceeds neither and equals one of them |
| ThreadedWrite.ChunksPartition | examples/writing_to_file_threaded.c:258-260 | chunk bounds: chunk 0 starts at line 0, every chunk is non-empty, each ends where the next begins, and the last ends at num_lines |
| ThreadedWrite.LineInOneChunk | examples/writing_to_file_threaded.c:258-260 | every line lies in chunk `k / fac` and in no other |
| ThreadedWrite.GenerateLines | examples/writing_to_file_threaded.c:161-192 | lines start..end-1 get line number k + 1 and the text of row k; no other line changes |
| ThreadedWrite.GeneratePhase | examples/writing_to_file_threaded.c:254-267 | after one generate_lines task per chunk, in any schedule, every line is generated |
| ThreadedWrite.CmpLines | examples/writing_to_file_threaded.c:218-222 | negative, zero or positive exactly as a's line number is below, equal to or above b's |
| ThreadedWrite.SortedPermutationUnique | examples/writing_to_file_threaded.c:271 | a sequence with strictly increasing line numbers is the only permutation of itself that cmp_lines accepts as sorted |
| ThreadedWrite.SortLeavesLinesInPlace | examples/writing_to_file_threaded.c:271 | because line k has number k + 1, every qsort result is the array as generated |
| ThreadedWrite.GetOffset | examples/writing_to_file_threaded.c:195-201 | `offsets[slot]` becomes the summed length of lines start..end-1; no other slot changes |
| ThreadedWrite.OffsetPhase | examples/writing_to_file_threaded.c:289-301 | after one get_offset task per chunk, in any schedule, `offsets[c]` is chunk c's byte length |
| ThreadedWrite.PrefixSums | examples/writing_to_file_threaded.c:304-305 | `offsets[i]` becomes the sum of the old entries 0..i |
| ThreadedWrite.PrefixOfChunkBytes | examples/writing_to_file_threaded.c:304-305 | the prefix sum of the chunk lengths through chunk c is the byte length of every line up to the end of chunk c |
| ThreadedWrite.WriteToFile | examples/writing_to_file_threaded.c:204-215 | the buffer becomes its old bytes before `offset`, then the chunk's lines back to back, then its old bytes after `offset + (chunk length)` |
| ThreadedWrite.ChunkBytesAdjacent | examples/writing_to_file_threaded.c:337 | chunk c's bytes end where the lines up to the end of chunk c end, so the next chunk's offset is the current one plus chunk c's length |
| ThreadedWrite.ChunkWritesDisjoint | examples/writing_to_file_threaded.c:334-341 | two different chunks write disjoint byte ranges |
| ThreadedWrite.TaskRange | examples/writing_to_file_threaded.c:334-337 | the offset main passes (0 for chunk 0, `offsets[i-1]` otherwise) is where chunk i's bytes begin, and the chunk fits in file_size |
| ThreadedWrite.WriteKeepsOtherChunks | examples/writing_to_file_threaded.c:331-342 | writing chunk c puts chunk c in place and keeps every chunk already in place |
| ThreadedWrite.WriteTask | examples/writing_to_file_threaded.c:334-341 | one write_to_file task adds its chunk to the set of chunks in place |
| ThreadedWrite.AllChunksWritten | examples/writing_to_file_threaded.c:331-345 | with chunks 0..c in place, the buffer starts with every line up to the end of chunk c, in order |
| ThreadedWrite.AllWritten | examples/writing_to_file_threaded.c:331-345 | every chunk in place means the buffer is the concatenation of all lines in order |
| ThreadedWrite.WritePhase | examples/writing_to_file_threaded.c:329-345 | after one write_to_file task per chunk, in any schedule, the buffer is the concatenation of all lines in order |
| ThreadedWrite.ChunkOffsets | examples/writing_to_file_threaded.c:280-305 | `offsets[c]` is the byte length of every line up to the end of chunk c, and the last entry is the total length, which serves as file_size |
| ThreadedWrite.GenerateSorted | examples/writing_to_file_threaded.c:246-271 | after generation and qsort, line k has number k + 1 and the lines concatenated are `FileText(rands)` |
| ThreadedWrite.WriteFile | examples/writing_to_file_threaded.c:315-345 | a buffer of `offsets[num_tasks - 1]` bytes ends up holding all lines in order |
| ThreadedWrite.ThreadedWrite | examples/writing_to_file_threaded.c:229-345 | fewer than one line is refused. Otherwise, for every schedule of the three rounds, the buffer is the lines' texts in line order, whatever each line drew: `FileText(rands)` when line k drew row `rands[k]` |

## Left out

- Threads, the mutex and the condition variables are not modelled; each locked section is one atomic step. This covers the blocking loops of `yatpool_put` and `yatpool_wait`, `yatpool_join`, and thread creation. A pool round is modelled as its tasks run one after another in an arbitrary schedule. The concurrent interleaving is not modelled because each task is proved to touch only its own data. The one exception is the shared `rand()` state, described next.
- `yatpool_put` and `yatpool_wait` are not modelled as operations of their own. `yatpool_put`'s queue effect is `TaskQueue.Put`; the rest is waiting. `yatpool_wait` has no queue effect: it waits for `done`, then its `cond_queue` broadcast (src/yatpool.c:320) is what lets a sleeping worker reach `WorkerStep`'s `Exit`, and the joins are not modelled.
- Calls through `taskfunc` and `argdestructor` are not modelled. A task's result is an input (`Pool.Complete`'s `result`), and a task's function and argument are opaque addresses (`Addr`).
- `malloc`/`calloc`/`free`, `yatpool_destroy`, `taskqueue_destroy` and the freeing in `taskqueue_clear` are not modelled. The over-allocation `calloc(num_threads, sizeof(YATPool))` is left out too.
- NULL pool, queue and task pointers are not modelled, because Dafny references are never null. The checks that guard them are left out, and so is the NULL-`str` abort of `string_create`; its only callers pass a live buffer.
- The process exit of `ERR_AND_EXIT` and the `assert(length)` in `taskqueue_init` become preconditions: a non-zero capacity, and non-zero thread and task counts for `yatpool_init`. `yatpool_reset` instead returns `ZeroTasks` or `NotCompleted` and changes nothing.
- YatPool.Pool.Complete: requires the slot `retvalarr[completed]` to exist, because the C code writes it unchecked. It exists by `ConsistentCompletionInBounds` while the batch is not done. That holds only if no more tasks are submitted than declared, which is the client's obligation. A worker checks `done` only before it pops (src/yatpool.c:219-226). So with extra tasks queued, two workers can both pop before `done` flips, and the second completion writes `retvalarr[total_tasks]`. The model does not promise anything for that case.
- `size_t` and `int` widths are not modelled; the model uses unbounded naturals. With at most `INT_MAX` lines the chunk arithmetic, the line numbers and the byte counts of the examples stay in range.
- ThreadedWrite.CmpLines: the `(int)` casts and the subtraction are exact integers here. They cannot overflow for line numbers in `[1, INT_MAX]`, which is all `main` produces.
- ThreadedWrite.GeneratePhase / ThreadedWrite.ThreadedWrite: `rands[k]` stands for the values line k happened to draw. In the program every `generate_lines` task draws from the one shared `rand()` state (examples/writing_to_file_threaded.c:172), so which values line k gets follows the schedule. For the same seed the threaded file therefore generally differs from the serial one. What holds for every schedule is that the file is the lines' texts in line order.
- `rand()` is not modelled; its values are inputs. The realloc growth of `joined` is modelled by the string it yields, not by the reallocation steps.
- File and timing plumbing are not modelled: `open`, `ftruncate`, `mmap`/`munmap`, `close`, `gettimeofday`, `printf`, and the `argc` check. The memory-mapped file is a `char` array of `file_size` bytes. `atoi` is not modelled: the threaded program takes `num_lines` as an `int` and refuses values below 1, as its `main` does. The serial program takes a natural number of lines. Its `main` does not check the count. For a negative count `calloc` gets a huge size, both loops are skipped, and the 0-byte `mmap` fails. For a count of 0 the `mmap` fails too and `main` returns `EXIT_FAILURE`, while `SerialWrite(0, [])` returns an empty buffer. Negative and zero counts are left out.
- qsort is not modelled as an algorithm. `GenerateSorted` picks an arbitrary permutation that cmp_lines accepts as sorted, and proves it is the generated array.
- The NUL terminator `string_create` writes is modelled. The NUL padding of `strncpy` is modelled by `StrNCopy`. A generated line never contains a NUL, so its copy is exact.
- `examples/numerical_integration_*.c` are not part of this model because they are floating-point Monte Carlo code. `src/yatpool.h` holds only declarations.
- The model follows the C code as written in these places:
  - a worker exits as soon as `done` holds, even if tasks are still queued;
  - `done` is set when `completed >= total_tasks`, not only at equality;
  - `taskqueue_put` also rejects a NULL value;
  - slot-available is signalled only when a pop empties the queue.

## Findings

| source | as written | input that shows it | evidently intended | confidence | as-written member | corrected member |
|---|---|---|---|---|---|---|
| src/yatpool.c:344-357 | `yatpool_reset` sets `total_tasks = num_tasks` but keeps the `retvalarr` allocated by `yatpool_init` for the old count. The completion step then writes `retvalarr[completed]` (line 193) past the end once the new count exceeds the old | `yatpool_init(&p, 2, 1)`, one task completes, `yatpool_reset(p, 2)`, two tasks are put. The second worker sleeps on `cond_queue` throughout, since the `done` broadcast at line 197 goes to `cond_done`. It survives the reset and completes both tasks, and the second writes `retvalarr[1]` of a 1-slot array | the reset gives the new batch a results container sized to `num_tasks` | not executed | YatPool.ResetAsWrittenOverrunsResults | YatPool.Pool.Reset |
