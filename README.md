# Pintos system-call layer, modelled in Dafny

This project models the system-call layer of a Pintos teaching kernel, as it
stands in two snapshots of `userprog/syscall.c`:

- **prj1** has a dispatcher for `halt`, `exit`, `exec`, `wait`, `read`,
  `write`, `fibo` and `max`. It checks the first argument word of `exit`,
  `exec` and `wait` with `check_address`. Its `read` counts console
  keystrokes on fd 0, and its `write` reports `size` on fd 1.
- **prj3** adds a per-process descriptor table `fd[128]` whose slots 0–2 are
  never handed out. It adds `open`, `close`, `create`, `remove`,
  `filesize`, `seek` and `tell`, a global `file_lock` around file-system
  calls, and an exit path that closes every open descriptor.

The trap stack is a sequence of five 32-bit words: the call number, then
four arguments. A word that fails `is_user_vaddr` (`w < PHYS_BASE`) makes
`check_address` end the process with status -1. The process then never
returns to the dispatcher. The model writes this as a state change to
`Exited(-1)`, and the calling method returns at once.

The handler also runs scalar arguments through `check_address`. Some
consequences:
- `exit(-2)` is recorded as status -1, because its word lies above
  PHYS_BASE.
- `max` checks its first three arguments but not its fourth.
- In prj1, `read`, `write`, `fibo` and `max` run with no check at all.

Files:
- `machine.dfy` (module `Machine`): words, the `(int)` cast, the store into
  `eax`, `is_user_vaddr`, process states, call decoding.
- `arith.dfy` (module `Arith`): `sys_fibo` and `sys_max`, which are the
  same in both snapshots.
- `console.dfy` (module `Console`): the fd 0 keystroke-counting loop.
- `descriptor_table.dfy` (module `DescriptorTable`): the table as a value,
  its least-free-slot scan and what the exit sweep closes.
- `prj3_syscall.dfy` (module `Prj3Syscall`): class `Process`, which holds
  the `fd` array, the lock flag, the exit state, the keyboard, the log of
  closed files and the set of deny-write files. Also the prj3 dispatcher.
- `prj1_syscall.dfy` (module `Prj1Syscall`): class `Process1` and the prj1
  dispatcher.

Calls into code that is not part of this model are inputs to the model:
- `filesys_open`, `filesys_create`, `filesys_remove`;
- `file_read`, `file_write`, `file_length`, `file_tell`;
- `process_execute`, `process_wait`.

Two headers are not part of this model either:
- `syscall-nr.h`: the call numbering is a parameter `nr: map<Word, Call>`.
- `vaddr.h`: PHYS_BASE is the `physBase` field of each process.

Where the design description and the code differ, the model follows the code:
- Buffers: only the start word of a buffer is checked, never its end.
- Scalar words: these are checked too.
- `create`, `remove`, `close`, `filesize`, `seek` and `tell`: they run
  without `file_lock`.
- `write`: prj3's `sys_write` does not reject a NULL buffer.

## Model

| member | source | states |
|---|---|---|
| `Machine.ToInt32` | prj3/src/userprog/syscall.c:51 | the `(int)` cast of a stack word is its two's-complement value: in the `int` range, equal to the word below 2^31, the word minus 2^32 above |
| `Machine.ToWord` | prj3/src/userprog/syscall.c:62 | storing an `int` into `eax` keeps it modulo 2^32 |
| `Machine.WordRoundTrip` | prj3/src/userprog/syscall.c:174 | a word read as `int` and stored back into `eax` is the same word, so `write` to fd 1 leaves `size` in `eax` |
| `Machine.IntRoundTrip` | prj3/src/userprog/syscall.c:68 | an in-range `int` stored into `eax` and read back as `int` is unchanged |
| `Arith.Fib` | prj1/src/userprog/syscall.c:104-107 | a negative argument is returned as it is, and from index 0 on every value is non-negative |
| `Arith.FibMonotone` | prj1/src/userprog/syscall.c:104-107 | for 0 <= m <= n, 0 <= Fib(m) <= Fib(n) |
| `Arith.FibAt46And47` | prj1/src/userprog/syscall.c:104-107 | Fib(46) = 1836311903 fits an `int`; Fib(47) = 2971215073 does not |
| `Arith.FibFitsInt32` | prj1/src/userprog/syscall.c:104-107 | for every `int` n <= 46 the result of `sys_fibo(n)` is in the `int` range, so no addition overflows |
| `Arith.FibExamples` | prj1/src/userprog/syscall.c:104-107 | fibo(0) = 0, fibo(1) = 1, fibo(10) = 55 |
| `Arith.Max4` | prj1/src/userprog/syscall.c:109-113 | the result is at least each of the four arguments and equal to one of them |
| `Arith.Max4Examples` | prj1/src/userprog/syscall.c:109-113 | max(3,9,2,7) = 9 and max(-1,-5,-3,-9) = -1 |
| `Console.StdinCount` | prj1/src/userprog/syscall.c:86-91 | the fd 0 read returns at most `limit`; every counted keystroke is non-NUL; a count below the limit stops on a NUL |
| `Console.StdinConsumed` | prj1/src/userprog/syscall.c:87-90 | when the count stays below the limit the loop stopped on a NUL, which was taken too, so one more keystroke than the count is consumed; when the count reaches the limit exactly that many are consumed |
| `Console.CountInput` | prj1/src/userprog/syscall.c:87-90 | the counting loop returns exactly `StdinCount` and takes exactly `StdinConsumed` keystrokes |
| `DescriptorTable.FirstFree` | prj3/src/userprog/syscall.c:214-215 | the scan lands on the least empty slot at or after its start, or finds none when every slot from there is occupied |
| `DescriptorTable.OpenFiles` | prj3/src/userprog/syscall.c:119-122 | the files the exit sweep closes are exactly those held in slots 3 and up |
| `DescriptorTable.StoreKeepsDistinct` | prj3/src/userprog/syscall.c:219 | storing a file no slot holds keeps every file in at most one slot |
| `DescriptorTable.ClearKeepsDistinct` | prj3/src/userprog/syscall.c:229 | emptying a slot keeps every file in at most one slot |
| `DescriptorTable.OpenFilesNoRepeats` | prj3/src/userprog/syscall.c:119-123 | when no file is in two slots, the sweep closes each file once |
| `Prj3Syscall.CheckedWords` | prj3/src/userprog/syscall.c:31-100 | each case checks a prefix of the four argument words, in order: none for `halt`; the first three for `read`, `write` and `max` (so `max` skips its fourth); the first two for `create` and `seek`; the first alone for every other call |
| `Prj3Syscall.Process.AcquireLock` | prj3/src/userprog/syscall.c:206 | `file_lock` can be taken only when this thread does not hold it, and is held afterwards |
| `Prj3Syscall.Process.ReleaseLock` | prj3/src/userprog/syscall.c:208 | `file_lock` can be released only by its holder, and is free afterwards |
| `Prj3Syscall.Process.Release` | prj3/src/userprog/syscall.c:228-229 | closing an occupied slot's file empties exactly that slot and appends the file to the close log |
| `Prj3Syscall.Process.Exit` | prj3/src/userprog/syscall.c:115-123 | `sys_exit(status)` records `Exited(status)`, closes every file of slots 3–127 in slot order, and leaves every slot NULL and the lock free |
| `Prj3Syscall.Process.CheckAddress` | prj3/src/userprog/syscall.c:107-109 | a word at or above PHYS_BASE ends the process with -1 after the sweep; any other word changes nothing |
| `Prj3Syscall.Process.CheckWords` | prj3/src/userprog/syscall.c:48-50 | a case's checks leave everything unchanged when all its words are user addresses, and end the process with -1 otherwise |
| `Prj3Syscall.Process.LowestFreeSlot` | prj3/src/userprog/syscall.c:214-215 | the scan loop returns the least empty slot from 3 on, or none |
| `Prj3Syscall.Process.Open` | prj3/src/userprog/syscall.c:203-224 | a bad or NULL path ends the process with -1. A failed `filesys_open` gives -1 and leaves the table unchanged. Otherwise the least free slot i ≥ 3 gets the file, every other slot is unchanged and i is returned. A full table gives -1 and closes the file again, so no opened file is left outside the table. The file is marked deny-write exactly when the process name equals the path. The lock is free afterwards |
| `Prj3Syscall.Process.Close` | prj3/src/userprog/syscall.c:226-231 | an empty slot, or a descriptor outside 0–127, ends the process with -1; an occupied slot is emptied, its file closed once, and no other slot changes |
| `Prj3Syscall.Process.ReadStdin` | prj3/src/userprog/syscall.c:148-152 | the fd 0 read returns `StdinCount` of the keyboard and removes the keystrokes it took |
| `Prj3Syscall.Process.Read` | prj3/src/userprog/syscall.c:142-166 | a bad or NULL buffer ends the process with -1. fd 0 counts keystrokes up to `size`. An fd ≥ 3 with an empty slot, and every fd ≥ 128, releases the lock and ends the process with -1; an occupied slot returns `file_read`'s count. fds 1 and 2 and negative fds give -1. Every path that returns leaves `file_lock` free |
| `Prj3Syscall.Process.ReadStdinAsWritten` | prj3/src/userprog/syscall.c:147-153 | the source's fd 0 read returns the count with `file_lock` still held, which breaks the between-calls invariant |
| `Prj3Syscall.Process.Write` | prj3/src/userprog/syscall.c:168-189 | fd 1 returns `size`. An fd ≥ 3 with an empty slot, and every fd ≥ 128, releases the lock and ends the process with -1; an occupied slot returns `file_write`'s count. Every other fd gives -1. Every path leaves `file_lock` free |
| `Prj3Syscall.Process.Filesize` | prj3/src/userprog/syscall.c:243-246 | an empty slot, or a descriptor outside 0–127, ends the process with -1; otherwise the file's length is returned and nothing changes |
| `Prj3Syscall.Process.Seek` | prj3/src/userprog/syscall.c:248-251 | an empty slot, or a descriptor outside 0–127, ends the process with -1; otherwise nothing in the table changes |
| `Prj3Syscall.Process.Tell` | prj3/src/userprog/syscall.c:253-256 | an empty slot, or a descriptor outside 0–127, ends the process with -1; otherwise the file's position is returned and nothing changes |
| `Prj3Syscall.Process.CreateOrRemove` | prj3/src/userprog/syscall.c:233-241 | `create` and `remove` end the process with -1 on a NULL path, and otherwise return the file system's answer and change nothing |
| `Prj3Syscall.Process.Dispatch` | prj3/src/userprog/syscall.c:20-104 | if a word its case checks is not a user address, the process ends with -1 before the call runs and `eax` is untouched. An unknown number changes nothing. `exit` records the status word as an `int`. `exec` and `wait` leave the pid and status in `eax` and change nothing else. `fibo` and `max` leave their exact results in `eax`. `write` to fd 1 leaves `size` in `eax`. `close` of an occupied slot empties only that slot. The process invariant is kept |
| `Prj3Syscall.OpenFullTableReturnsNothing` | prj3/src/userprog/syscall.c:214-224 | with slots 3–127 all taken, the scan finds nothing and the source's `sys_open` reaches its end with no return value |
| `Prj3Syscall.DescriptorIndexEscapesTable` | prj3/src/userprog/syscall.c:155 | descriptor 128 passes `check_address` and the `fd >= 3` guard yet lies outside `fd[128]`; with PHYS_BASE above 2^31, word 0x80000000 passes the check and is a negative index |
| `Prj3Syscall.CloseThenReuse` | prj3/src/userprog/syscall.c:226-246 | closing a descriptor and then asking for its size ends the process with -1 |
| `Prj3Syscall.OpenThenClose` | prj3/src/userprog/syscall.c:203-231 | an open into a free slot followed by a close of the returned descriptor gives back the original table, with the file closed once |
| `Prj1Syscall.CheckedWords1` | prj1/src/userprog/syscall.c:27-56 | only `exit`, `exec` and `wait` check a word, their first argument; every other case checks nothing |
| `Prj1Syscall.Handled1` | prj1/src/userprog/syscall.c:27-56 | this snapshot's switch has a case for every call except the file calls `open`, `close`, `create`, `remove`, `filesize`, `seek` and `tell` |
| `Prj1Syscall.StdinLimit` | prj1/src/userprog/syscall.c:87 | the loop bound `(int) size` is `size` up to 2^31 - 1 and 0 above, since the cast makes it negative |
| `Prj1Syscall.Write1` | prj1/src/userprog/syscall.c:96-102 | fd 1 leaves `size` in `eax`; every other fd gives -1 |
| `Prj1Syscall.Process1.Exit` | prj1/src/userprog/syscall.c:70-74 | `sys_exit(status)` records `Exited(status)` |
| `Prj1Syscall.Process1.CheckAddress` | prj1/src/userprog/syscall.c:62-64 | a word at or above PHYS_BASE ends the process with -1; any other word changes nothing |
| `Prj1Syscall.Process1.CheckWords` | prj1/src/userprog/syscall.c:31-41 | a case's checks leave the process running when all its words are user addresses, and end it with -1 otherwise |
| `Prj1Syscall.Process1.Read` | prj1/src/userprog/syscall.c:84-94 | fd 0 returns a count in [0, size]: the keystrokes before the first NUL, capped at `(int) size`. The keystrokes it took are removed. Any other fd gives -1 and takes nothing |
| `Prj1Syscall.Process1.Dispatch` | prj1/src/userprog/syscall.c:16-59 | only `exit`, `exec` and `wait` have a word checked. An unknown or unhandled number changes nothing. `exit` records the status word, or -1 when that word is not a user address. `exec` and `wait` with a user-address word keep the process running and leave the pid or status in `eax`. `read` from fd 0 leaves `StdinCount` of the keyboard in `eax` and removes the keystrokes it took; any other fd gives -1. `write`, `fibo` and `max` run whatever their words are and leave their results in `eax` |

## Left out

- `halt`: `shutdown_power_off` is a state `PoweredOff`, not a machine model.
- `exec` and `wait`: `process_execute` and `process_wait` are not part of
  this model. The pid and the status they return are inputs stored into
  `eax`.
- `sys_exit`: the console message is left out. So are the loop that waits
  for every child (prj3/src/userprog/syscall.c:124-129) and the closing of
  the running executable. These belong to the process model, which is not
  part of this model.
- File contents:
  - `file_read`, `file_write`, `file_length` and `file_tell` have no
    byte-level meaning here. Their answers are inputs, and buffers are not
    modelled.
  - What deny-write does to later writes is not modelled. Only the set of
    files marked deny-write is.
- Console output (`putbuf`) is not modelled. Only the returned count is.
- `file_lock` is a flag on the calling thread. Interleavings with other
  threads are not modelled.
- Reserved slots: slots 0–2 are taken to start NULL, because the thread
  set-up code is not part of this model.
- `file_close(NULL)`: the second call in `sys_close` is on the emptied slot.
  The model takes `file_close(NULL)` to do nothing.
- `filesys_open` is assumed to return a file that no slot already holds.
  This is a requirement on its answer, stated in `Process.Open`'s
  precondition.
- Prj3Syscall.Process.Read: a read from fd 0 needs enough keystrokes on the
  keyboard (`Supplies`), because `input_getc` would otherwise block. Its
  count is not wrapped to 32 bits for `size` ≥ 2^31, where the C loop
  counter would overflow.
- Prj1Syscall.Process1.Read: a read from fd 0 needs enough keystrokes on the
  keyboard (`Supplies`) for the same reason.
- Prj3Syscall.Process.Seek: `file_seek` moves the file's position inside the
  file system, which is not part of this model. The contract states only
  the slot check and that the table is unchanged.
- Prj3Syscall.Process.Dispatch:
  - It requires a `fibo` argument of at most 46. Larger ones overflow `int`,
    which C leaves undefined.
  - A read from fd 0 needs enough keystrokes (`Supplies`), as for `read`.
  - Its postcondition describes some calls directly: the failed checks,
    unknown numbers, `halt`, `exit`, `exec`, `wait`, `fibo`, `max`, `write`
    to fd 1 and `close`. For the other calls, the contracts of the methods it calls
    describe the result.
- Prj1Syscall.Process1.Dispatch: it requires a `fibo` argument of at most 46
  for the same reason. A read from fd 0 needs enough keystrokes
  (`Supplies`), as for `read`.

## Findings

| source | as written | input that shows it | evidently intended | confidence | as-written member | corrected member |
|---|---|---|---|---|---|---|
| prj3/src/userprog/syscall.c:214-224 | when every slot from 3 to 127 is taken, `sys_open` falls off its end with no `return`, so `eax` gets an unspecified value and the opened file is never stored | 125 files open in slots 3–127, then `open` of an existing file | close the file again and return -1 when no slot is free | high; not executed | `Prj3Syscall.OpenFullTableReturnsNothing` | `Prj3Syscall.Process.Open` |
| prj3/src/userprog/syscall.c:147-153 | the fd 0 branch of `sys_read` returns while still holding `file_lock`, so the thread's next `lock_acquire` on it fails | `read(0, buf, 1)` with one keystroke waiting, then any `write` | release `file_lock` before returning | high; not executed | `Prj3Syscall.Process.ReadStdinAsWritten` | `Prj3Syscall.Process.Read` |
| prj3/src/userprog/syscall.c:155 | `fd[fd]` is read for any fd ≥ 3 in `read` and `write` (also line 177), and for any fd at all in `close`, `filesize`, `seek` and `tell` (lines 227, 244, 249, 254), outside the 128-slot array | `read(128, buf, 1)`, or `close` with word 0x80000000 when PHYS_BASE is above 2^31 | treat a descriptor outside 0–127 as an empty slot: exit with -1 | high; not executed | `Prj3Syscall.DescriptorIndexEscapesTable` | `Prj3Syscall.Process.Close`, `Prj3Syscall.Process.Filesize`, `Prj3Syscall.Process.Seek`, `Prj3Syscall.Process.Tell`, `Prj3Syscall.Process.Read`, `Prj3Syscall.Process.Write` |
