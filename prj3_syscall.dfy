/** The system-call layer of prj3/src/userprog/syscall.c: the dispatcher, the
    pointer check, the exit path with its descriptor sweep, and the
    descriptor-table operations (open, close, read, write, filesize, seek,
    tell, create, remove) of the calling process. */
module Prj3Syscall {
  import opened Machine
  import opened Arith
  import opened Console
  import opened DescriptorTable

  /** What the collaborators the layer calls answer on this trap: the process
      and file-system calls are not modelled, so their results are inputs. */
  datatype Env = Env(
    execPid: int,            // process_execute
    waitStatus: int,         // process_wait
    file: Option<FileId>,  // filesys_open
    pathText: string,        // the string the path pointer points to
    created: bool,           // filesys_create
    removed: bool,           // filesys_remove
    length: int,             // file_length
    position: Word,          // file_tell
    readCount: int,          // file_read
    writeCount: int)         // file_write

  /** The words each case of the switch passes to `check_address`, in the
      order it passes them.  `max` leaves its fourth argument out. */
  function CheckedWords(c: Call, stack: seq<Word>): (ws: seq<Word>)
    requires |stack| == 5
    ensures |ws| <= 3 && ws == stack[1..|ws| + 1]
    ensures |ws| == 0 <==> c == SysHalt
    ensures |ws| == 2 <==> c in {SysCreate, SysSeek}
    ensures |ws| == 3 <==> c in {SysRead, SysWrite, SysMax}
  {
    match c
    case SysHalt => []
    case SysRead => [stack[1], stack[2], stack[3]]
    case SysWrite => [stack[1], stack[2], stack[3]]
    case SysMax => [stack[1], stack[2], stack[3]]
    case SysCreate => [stack[1], stack[2]]
    case SysSeek => [stack[1], stack[2]]
    case _ => [stack[1]]
  }

  /** The state of one user process as the system-call layer sees it.
      `sys_exit` never returns to its caller: a method that calls `Exit`
      returns at once, with a placeholder result that nobody reads. */
  class Process {
    /** PHYS_BASE, the first kernel address. */
    const physBase: nat
    /** `thread_current()->name`. */
    const name: string
    /** `thread_current()->fd`. */
    const fd: array<Option<FileId>>
    /** Running, or `exit_status` once `sys_exit` has run. */
    var state: ProcState
    /** Whether this thread holds `file_lock`. */
    var lockHeld: bool
    /** The keystrokes `input_getc` has not yet handed out. */
    var input: seq<Byte>
    /** Every file passed to `file_close`, in order. */
    var closed: seq<FileId>
    /** Every file passed to `file_deny_write`. */
    var denied: set<FileId>

    /** Between system calls: 128 slots, the reserved ones empty, no file in
        two slots, `file_lock` free, and an exited process holds no file. */
    ghost predicate Valid()
      reads this, fd
    {
      && fd.Length == NFD
      && (forall i :: 0 <= i < FIRST_FD ==> fd[i] == None)
      && Distinct(fd[..])
      && !lockHeld
      && (state.Exited? ==> fd[..] == EmptyTable())
    }

    /** The process ran `sys_exit(status)` from table `t0` and close log
        `log0`: every file of `t0` was closed in slot order, every slot is
        empty and the lock is free. */
    ghost predicate ExitedFrom(t0: Table, log0: seq<FileId>, status: int)
      reads this, fd
    {
      && |t0| == NFD
      && state == Exited(status)
      && fd[..] == EmptyTable()
      && closed == log0 + OpenFiles(t0, NFD)
      && !lockHeld
    }

    /** The process is still running with table `t`, close log `log` and
        keyboard `keys`. */
    ghost predicate Holds(t: Table, log: seq<FileId>, keys: seq<Byte>)
      reads this, fd
    {
      state == Running && fd[..] == t && closed == log && input == keys
    }

    constructor (physBase: nat, name: string, input: seq<Byte>)
      ensures Valid() && state == Running && fresh(fd)
      ensures this.physBase == physBase && this.name == name && this.input == input
      ensures fd[..] == EmptyTable() && closed == [] && denied == {}
    {
      this.physBase := physBase;
      this.name := name;
      this.input := input;
      fd := new Option<FileId>[NFD](_ => None);
      state := Running;
      lockHeld := false;
      closed := [];
      denied := {};
    }

    /** `thread_current()->fd[n]`, read only inside the array: an index
        outside it counts as an empty slot. */
    function Slot(n: int): (s: Option<FileId>)
      requires fd.Length == NFD
      reads this, fd
      ensures !(0 <= n < NFD) ==> s == None
      ensures 0 <= n < NFD ==> s == fd[n]
    {
      if 0 <= n < NFD then fd[n] else None
    }

    method AcquireLock()
      requires !lockHeld
      modifies this`lockHeld
      ensures lockHeld
    {
      lockHeld := true;
    }

    method ReleaseLock()
      requires lockHeld
      modifies this`lockHeld
      ensures !lockHeld
    {
      lockHeld := false;
    }

    /** Close the file of an occupied slot and empty the slot. */
    method Release(i: int)
      requires fd.Length == NFD && 0 <= i < NFD && fd[i].Some?
      modifies this`closed, fd
      ensures fd[..] == old(fd[..])[i := None]
      ensures closed == old(closed) + [old(fd[i]).value]
    {
      closed := closed + [fd[i].value];
      fd[i] := None;
    }

    /** `sys_exit`: record the status, then close every occupied slot from 3
        up.  The console message, the wait for the children and closing the
        running executable are left out. */
    method Exit(status: int)
      requires Valid() && state == Running
      modifies this`state, this`closed, fd
      ensures Valid()
      ensures ExitedFrom(old(fd[..]), old(closed), status)
    {
      state := Exited(status);
      ghost var t0 := fd[..];
      var i := FIRST_FD;
      while i < NFD
        invariant FIRST_FD <= i <= NFD
        invariant forall j :: 0 <= j < i ==> fd[j] == None
        invariant forall j :: i <= j < NFD ==> fd[j] == t0[j]
        invariant closed == old(closed) + OpenFiles(t0, i)
        invariant state == Exited(status)
      {
        if fd[i] != None {
          Release(i);
        }
        i := i + 1;
      }
      assert fd[..] == EmptyTable();
    }

    /** `check_address`: a word at or above PHYS_BASE ends the process with
        -1; any other word changes nothing. */
    method CheckAddress(v: Word)
      requires Valid() && state == Running
      modifies this`state, this`closed, fd
      ensures Valid()
      ensures IsUserVaddr(v, physBase) ==> Holds(old(fd[..]), old(closed), input)
      ensures !IsUserVaddr(v, physBase) ==> ExitedFrom(old(fd[..]), old(closed), -1)
    {
      if !IsUserVaddr(v, physBase) {
        Exit(-1);
      }
    }

    /** The scan of `sys_open`: the least empty slot from 3 on. */
    method LowestFreeSlot() returns (slot: Option<nat>)
      requires fd.Length == NFD
      ensures slot == FirstFree(fd[..], FIRST_FD)
    {
      var i := FIRST_FD;
      while i < NFD
        invariant FIRST_FD <= i <= NFD
        invariant FirstFree(fd[..], FIRST_FD) == FirstFree(fd[..], i)
      {
        if fd[i] == None {
          return Some(i);
        }
        i := i + 1;
      }
      return None;
    }

    /** `sys_open`.  When every slot is taken the source returns no value
        and keeps the file it opened in no slot; here the file is closed
        again and -1 is returned. */
    method Open(path: Word, pathText: string, file: Option<FileId>) returns (r: int)
      requires Valid() && state == Running
      requires file.Some? ==> file !in fd[..]
      modifies this`state, this`closed, this`lockHeld, this`denied, fd
      ensures !IsUserVaddr(path, physBase) || path == 0 ==>
                ExitedFrom(old(fd[..]), old(closed), -1) && denied == old(denied)
      ensures IsUserVaddr(path, physBase) && path != 0 && file.None? ==>
                Holds(old(fd[..]), old(closed), input) && denied == old(denied) && r == -1
      ensures IsUserVaddr(path, physBase) && path != 0 && file.Some? ==>
                match FirstFree(old(fd[..]), FIRST_FD)
                case None =>
                  && Holds(old(fd[..]), old(closed) + [file.value], input)
                  && denied == old(denied) && r == -1
                case Some(i) =>
                  && Holds(old(fd[..])[i := file], old(closed), input)
                  && r == i
                  && denied == old(denied) + (if name == pathText then {file.value} else {})
      ensures Valid()
    {
      if !IsUserVaddr(path, physBase) || path == 0 {
        Exit(-1);
        return 0;
      }
      AcquireLock();
      ReleaseLock();
      if file == None {
        return -1;
      }
      var slot := LowestFreeSlot();
      match slot
      case None =>
        closed := closed + [file.value];
        r := -1;
      case Some(i) =>
        if name == pathText {
          denied := denied + {file.value};
        }
        ghost var t0 := fd[..];
        fd[i] := file;
        assert fd[..] == t0[i := file];
        StoreKeepsDistinct(t0, i, file.value);
        r := i;
    }

    /** `sys_close`: an empty slot ends the process with -1; otherwise the
        file is closed and its slot emptied.  The second `file_close` the
        source makes is on the emptied slot, that is on NULL, and does
        nothing. */
    method Close(n: int)
      requires Valid() && state == Running
      modifies this`state, this`closed, fd
      ensures Valid()
      ensures !(0 <= n < NFD) ==> ExitedFrom(old(fd[..]), old(closed), -1)
      ensures old(Slot(n)) == None ==> ExitedFrom(old(fd[..]), old(closed), -1)
      ensures old(Slot(n)).Some? ==>
                Holds(old(fd[..])[n := None], old(closed) + [old(Slot(n)).value], input)
    {
      if Slot(n) == None {
        Exit(-1);
        return;
      }
      ghost var t0 := fd[..];
      Release(n);
      ClearKeepsDistinct(t0, n);
    }

    /** Take the fd 0 keystrokes off the keyboard. */
    method ReadStdin(limit: nat) returns (count: nat)
      requires Supplies(input, limit)
      modifies this`input
      ensures count == StdinCount(old(input), limit)
      ensures input == old(input)[StdinConsumed(old(input), limit)..]
    {
      var consumed;
      count, consumed := CountInput(input, limit);
      input := input[consumed..];
    }

    /** `sys_read`, with the fd 0 path releasing `file_lock` before it
        returns, which the source omits. */
    method Read(n: int, buffer: Word, size: Word, fileCount: int) returns (r: int)
      requires Valid() && state == Running
      requires n == 0 && IsUserVaddr(buffer, physBase) && buffer != 0 ==> Supplies(input, size)
      modifies this`state, this`closed, this`lockHeld, this`input, fd
      ensures Valid()
      ensures !IsUserVaddr(buffer, physBase) || buffer == 0 ==>
                ExitedFrom(old(fd[..]), old(closed), -1) && input == old(input)
      ensures IsUserVaddr(buffer, physBase) && buffer != 0 && n == 0 ==>
                && Holds(old(fd[..]), old(closed), old(input)[StdinConsumed(old(input), size)..])
                && r == StdinCount(old(input), size)
      ensures IsUserVaddr(buffer, physBase) && buffer != 0 && n >= NFD ==>
                ExitedFrom(old(fd[..]), old(closed), -1) && input == old(input)
      ensures IsUserVaddr(buffer, physBase) && buffer != 0 && n >= FIRST_FD ==>
                if old(Slot(n)) == None
                then ExitedFrom(old(fd[..]), old(closed), -1) && input == old(input)
                else Holds(old(fd[..]), old(closed), old(input)) && r == fileCount
      ensures IsUserVaddr(buffer, physBase) && buffer != 0 && n != 0 && n < FIRST_FD ==>
                Holds(old(fd[..]), old(closed), old(input)) && r == -1
    {
      if !IsUserVaddr(buffer, physBase) || buffer == 0 {
        Exit(-1);
        return 0;
      }
      AcquireLock();
      if n == 0 {
        r := ReadStdin(size);
        ReleaseLock();
        return;
      } else if n >= FIRST_FD {
        if Slot(n) == None {
          ReleaseLock();
          Exit(-1);
          return 0;
        }
        r := fileCount;
        ReleaseLock();
        return;
      }
      ReleaseLock();
      r := -1;
    }

    /** `sys_read` on fd 0 as the source has it: the count is returned while
        `file_lock` is still held, so the process leaves the call in a state
        where its next `lock_acquire` fails. */
    method ReadStdinAsWritten(size: Word) returns (r: int)
      requires Valid() && state == Running && Supplies(input, size)
      modifies this`lockHeld, this`input
      ensures r == StdinCount(old(input), size)
      ensures lockHeld && !Valid()
    {
      AcquireLock();
      r := ReadStdin(size);
    }

    /** `sys_write`: fd 1 goes to the console and reports `size`; fds from 3
        on go through the table; anything else gives -1.  Every path releases
        `file_lock`. */
    method Write(n: int, size: Word, fileCount: int) returns (r: int)
      requires Valid() && state == Running
      modifies this`state, this`closed, this`lockHeld, fd
      ensures Valid()
      ensures n == 1 ==> Holds(old(fd[..]), old(closed), input) && r == ToInt32(size)
      ensures n >= NFD ==> ExitedFrom(old(fd[..]), old(closed), -1)
      ensures n >= FIRST_FD ==>
                if old(Slot(n)) == None
                then ExitedFrom(old(fd[..]), old(closed), -1)
                else Holds(old(fd[..]), old(closed), input) && r == fileCount
      ensures n != 1 && n < FIRST_FD ==> Holds(old(fd[..]), old(closed), input) && r == -1
    {
      AcquireLock();
      if n == 1 {
        ReleaseLock();
        return ToInt32(size);
      } else if n >= FIRST_FD {
        if Slot(n) == None {
          ReleaseLock();
          Exit(-1);
          return 0;
        }
        r := fileCount;
        ReleaseLock();
        return;
      }
      ReleaseLock();
      r := -1;
    }

    /** `sys_filesize`: an empty slot ends the process with -1; otherwise the
        file system's length is returned and nothing changes. */
    method Filesize(n: int, length: int) returns (r: int)
      requires Valid() && state == Running
      modifies this`state, this`closed, fd
      ensures Valid()
      ensures !(0 <= n < NFD) ==> ExitedFrom(old(fd[..]), old(closed), -1)
      ensures old(Slot(n)) == None ==> ExitedFrom(old(fd[..]), old(closed), -1)
      ensures old(Slot(n)).Some? ==> Holds(old(fd[..]), old(closed), input) && r == length
    {
      if Slot(n) == None {
        Exit(-1);
        return 0;
      }
      r := length;
    }

    /** `sys_seek`: an empty slot ends the process with -1; otherwise the
        table is left as it is. */
    method Seek(n: int, position: Word)
      requires Valid() && state == Running
      modifies this`state, this`closed, fd
      ensures Valid()
      ensures !(0 <= n < NFD) ==> ExitedFrom(old(fd[..]), old(closed), -1)
      ensures old(Slot(n)) == None ==> ExitedFrom(old(fd[..]), old(closed), -1)
      ensures old(Slot(n)).Some? ==> Holds(old(fd[..]), old(closed), input)
    {
      if Slot(n) == None {
        Exit(-1);
        return;
      }
    }

    /** `sys_tell`: an empty slot ends the process with -1; otherwise the
        file system's position is returned and nothing changes. */
    method Tell(n: int, position: Word) returns (r: Word)
      requires Valid() && state == Running
      modifies this`state, this`closed, fd
      ensures Valid()
      ensures !(0 <= n < NFD) ==> ExitedFrom(old(fd[..]), old(closed), -1)
      ensures old(Slot(n)) == None ==> ExitedFrom(old(fd[..]), old(closed), -1)
      ensures old(Slot(n)).Some? ==> Holds(old(fd[..]), old(closed), input) && r == position
    {
      if Slot(n) == None {
        Exit(-1);
        return 0;
      }
      r := position;
    }

    /** `sys_create` and `sys_remove`: a NULL path ends the process with -1;
        otherwise the file system's answer is returned. */
    method CreateOrRemove(path: Word, answer: bool) returns (ok: bool)
      requires Valid() && state == Running
      modifies this`state, this`closed, fd
      ensures Valid()
      ensures path == 0 ==> ExitedFrom(old(fd[..]), old(closed), -1)
      ensures path != 0 ==> Holds(old(fd[..]), old(closed), input) && ok == answer
    {
      if path == 0 {
        Exit(-1);
        return false;
      }
      ok := answer;
    }

    /** The `check_address` calls of one case of the switch, in order: the
        first word outside user space ends the process with -1. */
    method CheckWords(ws: seq<Word>)
      requires Valid() && state == Running
      modifies this`state, this`closed, fd
      ensures Valid()
      ensures AllUser(ws, physBase) ==> Holds(old(fd[..]), old(closed), input)
      ensures !AllUser(ws, physBase) ==> ExitedFrom(old(fd[..]), old(closed), -1)
      decreases |ws|
    {
      if ws == [] {
        return;
      }
      CheckAddress(ws[0]);
      if state != Running {
        return;
      }
      CheckWords(ws[1..]);
      assert forall k :: 1 <= k < |ws| ==> ws[k] == ws[1..][k - 1];
    }

    /** What the trap needs from outside for the dispatcher to reach an
        answer: a `fibo` argument whose result fits an `int` (larger ones
        overflow, which C leaves undefined), enough keystrokes for a read
        from fd 0, and a file from `filesys_open` that no slot holds yet. */
    ghost predicate DispatchReady(nr: map<Word, Call>, stack: seq<Word>, env: Env)
      requires |stack| == 5
      reads this, fd
    {
      && (Decode(nr, stack[0]) == Some(SysFibo) && IsUserVaddr(stack[1], physBase) ==>
            ToInt32(stack[1]) <= 46)
      && ((Decode(nr, stack[0]) == Some(SysRead) && AllUser([stack[1], stack[2], stack[3]], physBase)
           && ToInt32(stack[1]) == 0 && stack[2] != 0) ==> Supplies(input, stack[3]))
      && (env.file.Some? ==> env.file !in fd[..])
    }

    /** `syscall_handler`: decode word 0, pass the words the case names to
        `check_address`, run the call and store its result in `eax`.  A
        number no case matches changes nothing. */
    method Dispatch(nr: map<Word, Call>, stack: seq<Word>, eax0: Word, env: Env) returns (eax: Word)
      requires Valid() && state == Running && |stack| == 5
      requires DispatchReady(nr, stack, env)
      modifies this`state, this`closed, this`lockHeld, this`input, this`denied, fd
      ensures Valid()
      ensures Decode(nr, stack[0]).None? ==>
                Holds(old(fd[..]), old(closed), old(input)) && denied == old(denied) && eax == eax0
      ensures Decode(nr, stack[0]).Some? && !AllUser(CheckedWords(Decode(nr, stack[0]).value, stack), physBase) ==>
                && ExitedFrom(old(fd[..]), old(closed), -1)
                && input == old(input) && denied == old(denied) && eax == eax0
      ensures Decode(nr, stack[0]) == Some(SysHalt) ==> state == PoweredOff && eax == eax0
      ensures Decode(nr, stack[0]) == Some(SysExit) && IsUserVaddr(stack[1], physBase) ==>
                ExitedFrom(old(fd[..]), old(closed), ToInt32(stack[1])) && eax == eax0
      ensures Decode(nr, stack[0]) == Some(SysExec) && IsUserVaddr(stack[1], physBase) ==>
                && Holds(old(fd[..]), old(closed), old(input)) && denied == old(denied)
                && eax == ToWord(env.execPid)
      ensures Decode(nr, stack[0]) == Some(SysWait) && IsUserVaddr(stack[1], physBase) ==>
                && Holds(old(fd[..]), old(closed), old(input)) && denied == old(denied)
                && eax == ToWord(env.waitStatus)
      ensures Decode(nr, stack[0]) == Some(SysFibo) && IsUserVaddr(stack[1], physBase) ==>
                && Holds(old(fd[..]), old(closed), old(input)) && denied == old(denied)
                && ToInt32(eax) == Fib(ToInt32(stack[1]))
      ensures Decode(nr, stack[0]) == Some(SysMax) && AllUser([stack[1], stack[2], stack[3]], physBase) ==>
                && Holds(old(fd[..]), old(closed), old(input)) && denied == old(denied)
                && ToInt32(eax) == Max4(ToInt32(stack[1]), ToInt32(stack[2]), ToInt32(stack[3]), ToInt32(stack[4]))
      ensures Decode(nr, stack[0]) == Some(SysWrite) && AllUser([stack[1], stack[2], stack[3]], physBase)
              && ToInt32(stack[1]) == 1 ==>
                Holds(old(fd[..]), old(closed), old(input)) && denied == old(denied) && eax == stack[3]
      ensures Decode(nr, stack[0]) == Some(SysClose) && IsUserVaddr(stack[1], physBase)
              && old(Slot(ToInt32(stack[1]))).Some? ==>
                Holds(old(fd[..])[ToInt32(stack[1]) := None],
                      old(closed) + [old(Slot(ToInt32(stack[1]))).value], old(input))
    {
      eax := eax0;
      var call := Decode(nr, stack[0]);
      if call.None? {
        return;
      }
      CheckWords(CheckedWords(call.value, stack));
      if state != Running {
        return;
      }
      match call.value
      case SysHalt =>
        state := PoweredOff;
      case SysExit =>
        Exit(ToInt32(stack[1]));
      case SysExec =>
        eax := ToWord(env.execPid);
      case SysWait =>
        eax := ToWord(env.waitStatus);
      case SysRead =>
        var r := Read(ToInt32(stack[1]), stack[2], stack[3], env.readCount);
        if state != Running { return; }
        eax := ToWord(r);
      case SysWrite =>
        var r := Write(ToInt32(stack[1]), stack[3], env.writeCount);
        if state != Running { return; }
        eax := ToWord(r);
      case SysFibo =>
        var n := ToInt32(stack[1]);
        AllUserSingle(stack[1], physBase);
        FibFitsInt32(n);
        IntRoundTrip(Fib(n));
        eax := ToWord(Fib(n));
      case SysMax =>
        var m := Max4(ToInt32(stack[1]), ToInt32(stack[2]), ToInt32(stack[3]), ToInt32(stack[4]));
        IntRoundTrip(m);
        eax := ToWord(m);
      case SysOpen =>
        var r := Open(stack[1], env.pathText, env.file);
        if state != Running { return; }
        eax := ToWord(r);
      case SysClose =>
        Close(ToInt32(stack[1]));
      case SysCreate =>
        var ok := CreateOrRemove(stack[1], env.created);
        if state != Running { return; }
        eax := if ok then 1 else 0;
      case SysRemove =>
        var ok := CreateOrRemove(stack[1], env.removed);
        if state != Running { return; }
        eax := if ok then 1 else 0;
      case SysFilesize =>
        var r := Filesize(ToInt32(stack[1]), env.length);
        if state != Running { return; }
        eax := ToWord(r);
      case SysSeek =>
        Seek(ToInt32(stack[1]), stack[2]);
      case SysTell =>
        var r := Tell(ToInt32(stack[1]), env.position);
        if state != Running { return; }
        eax := r;
    }
  }

  /** The value the source's `sys_open` gives back; None stands for control
      reaching the end of the function without a `return`, which leaves an
      unspecified value in `eax`. */
  function OpenReturnAsWritten(file: Option<FileId>, free: Option<nat>): Option<int>
  {
    match file
    case None => Some(-1)
    case Some(_) => if free.Some? then Some(free.value) else None
  }

  /** With every general-purpose slot taken, a successful `filesys_open`
      makes the source's `sys_open` fall off its end with no return value,
      where `Process.Open` returns -1. */
  lemma OpenFullTableReturnsNothing(t: Table, f: FileId)
    requires |t| == NFD && forall i :: FIRST_FD <= i < NFD ==> t[i].Some?
    ensures FirstFree(t, FIRST_FD) == None
    ensures OpenReturnAsWritten(Some(f), FirstFree(t, FIRST_FD)) == None
  {
  }

  /** The guard the source's `sys_read` and `sys_write` put in front of
      `thread_current()->fd[fd]`: every descriptor from 3 up reaches it. */
  predicate TableRouteAsWritten(n: int)
  {
    n >= FIRST_FD
  }

  /** Descriptor 128 passes `check_address`, passes the read and write
      guard, and indexes one past the end of the 128-slot array; with
      PHYS_BASE above 2^31 the word 0x8000_0000 also passes the check and
      becomes a negative index for `sys_close`, `sys_filesize`, `sys_seek`
      and `sys_tell`, which do no bounds check at all. */
  lemma DescriptorIndexEscapesTable(physBase: nat)
    requires physBase > 0x8000_0000
    ensures IsUserVaddr(NFD, physBase) && TableRouteAsWritten(ToInt32(NFD)) && ToInt32(NFD) >= NFD
    ensures IsUserVaddr(0x8000_0000, physBase) && ToInt32(0x8000_0000) < 0
  {
  }

  /** Closing a descriptor and then asking for its size ends the process
      with -1: `close` is not idempotent, and a closed descriptor is not
      valid any more. */
  method CloseThenReuse(p: Process, n: int)
    requires p.Valid() && p.state == Running && p.Slot(n).Some?
    modifies p`state, p`closed, p.fd
    ensures p.Valid() && p.state == Exited(-1)
  {
    p.Close(n);
    var _ := p.Filesize(n, 0);
  }

  /** Opening a file while a slot is free and closing the descriptor that
      comes back leaves the table as it was, with that file closed once. */
  method OpenThenClose(p: Process, path: Word, pathText: string, f: FileId)
    requires p.Valid() && p.state == Running && Some(f) !in p.fd[..]
    requires IsUserVaddr(path, p.physBase) && path != 0
    requires FirstFree(p.fd[..], FIRST_FD).Some?
    modifies p`state, p`closed, p`lockHeld, p`denied, p.fd
    ensures p.Valid() && p.state == Running
    ensures p.fd[..] == old(p.fd[..]) && p.closed == old(p.closed) + [f]
  {
    ghost var t0 := p.fd[..];
    var r := p.Open(path, pathText, Some(f));
    p.Close(r);
    assert p.fd[..] == t0[r := Some(f)][r := None];
  }
}
