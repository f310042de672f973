/** The system-call layer of prj1/src/userprog/syscall.c, the earlier
    snapshot: no descriptor table and no file lock; only `exit`, `exec` and
    `wait` have their first argument checked, and `read` and `write` know the
    console only. */
module Prj1Syscall {
  import opened Machine
  import opened Arith
  import opened Console

  /** The words each case of this snapshot's switch passes to
      `check_address`: the first argument of `exit`, `exec` and `wait`, and
      nothing for `halt`, `read`, `write`, `fibo` and `max`. */
  function CheckedWords1(c: Call, stack: seq<Word>): (ws: seq<Word>)
    requires |stack| == 5
    ensures |ws| <= 1 && ws == stack[1..|ws| + 1]
    ensures |ws| == 1 <==> c in {SysExit, SysExec, SysWait}
  {
    match c
    case SysExit => [stack[1]]
    case SysExec => [stack[1]]
    case SysWait => [stack[1]]
    case _ => []
  }

  /** The calls this snapshot's switch has a case for: none of the file
      calls that the later snapshot adds. */
  predicate Handled1(c: Call): (b: bool)
    ensures b <==> c !in {SysOpen, SysClose, SysCreate, SysRemove, SysFilesize, SysSeek, SysTell}
  {
    match c
    case SysHalt | SysExit | SysExec | SysWait | SysRead | SysWrite | SysFibo | SysMax => true
    case _ => false
  }

  /** The number of keystrokes the fd 0 read may take: its loop runs while
      `i < (int) size`, so a size of 2^31 or more becomes a negative bound
      and no keystroke is taken. */
  function StdinLimit(size: Word): (limit: nat)
    ensures limit <= size && limit <= INT_MAX
    ensures size <= INT_MAX ==> limit == size
    ensures size > INT_MAX ==> limit == 0
  {
    var bound := ToInt32(size);
    if bound < 0 then 0 else bound
  }

  /** `sys_write` of this snapshot: fd 1 goes to the console and reports
      `size` back through `eax`; every other descriptor gives -1. */
  function Write1(n: int, size: Word): (r: int)
    ensures n == 1 ==> ToWord(r) == size && INT_MIN <= r <= INT_MAX
    ensures n != 1 ==> r == -1
  {
    if n == 1 then ToInt32(size) else -1
  }

  /** The calling process as this snapshot sees it.  `sys_exit` never
      returns to its caller: a method that calls `Exit` returns at once. */
  class Process1 {
    /** PHYS_BASE, the first kernel address. */
    const physBase: nat
    /** Running, or `exit_status` once `sys_exit` has run. */
    var state: ProcState
    /** The keystrokes `input_getc` has not yet handed out. */
    var input: seq<Byte>

    constructor (physBase: nat, input: seq<Byte>)
      ensures this.physBase == physBase && state == Running && this.input == input
    {
      this.physBase := physBase;
      state := Running;
      this.input := input;
    }

    /** `sys_exit`: record the status; the thread then ends. */
    method Exit(status: int)
      requires state == Running
      modifies this`state
      ensures state == Exited(status)
    {
      state := Exited(status);
    }

    /** `check_address`: a word at or above PHYS_BASE ends the process with
        -1; any other word changes nothing. */
    method CheckAddress(v: Word)
      requires state == Running
      modifies this`state
      ensures IsUserVaddr(v, physBase) ==> state == Running
      ensures !IsUserVaddr(v, physBase) ==> state == Exited(-1)
    {
      if !IsUserVaddr(v, physBase) {
        Exit(-1);
      }
    }

    /** The `check_address` calls of one case of the switch, in order. */
    method CheckWords(ws: seq<Word>)
      requires state == Running
      modifies this`state
      ensures AllUser(ws, physBase) ==> state == Running
      ensures !AllUser(ws, physBase) ==> state == Exited(-1)
      decreases |ws|
    {
      if ws == [] {
        return;
      }
      CheckAddress(ws[0]);
      if state != Running {
        return;
      }
      CheckWords(ws[1..]);
      assert forall k :: 1 <= k < |ws| ==> ws[k] == ws[1..][k - 1];
    }

    /** `sys_read` of this snapshot: fd 0 counts keystrokes up to the first
        NUL or `(int) size` of them; every other descriptor gives -1. */
    method Read(n: int, size: Word) returns (r: int)
      requires n == 0 ==> Supplies(input, StdinLimit(size))
      modifies this`input
      ensures n == 0 ==> && 0 <= r <= size
                         && r == StdinCount(old(input), StdinLimit(size))
                         && input == old(input)[StdinConsumed(old(input), StdinLimit(size))..]
      ensures n != 0 ==> r == -1 && input == old(input)
    {
      if n == 0 {
        var count, consumed := CountInput(input, StdinLimit(size));
        input := input[consumed..];
        return count;
      }
      return -1;
    }

    /** `syscall_handler` of this snapshot: decode word 0, check the first
        argument of `exit`, `exec` and `wait`, run the call and store its
        result in `eax`.  A number no case matches changes nothing. */
    method Dispatch(nr: map<Word, Call>, stack: seq<Word>, eax0: Word, execPid: int, waitStatus: int)
      returns (eax: Word)
      requires state == Running && |stack| == 5
      requires Decode(nr, stack[0]) == Some(SysFibo) ==> ToInt32(stack[1]) <= 46
      requires Decode(nr, stack[0]) == Some(SysRead) && ToInt32(stack[1]) == 0 ==>
                 Supplies(input, StdinLimit(stack[3]))
      modifies this`state, this`input
      ensures Decode(nr, stack[0]).None? || !Handled1(Decode(nr, stack[0]).value) ==>
                state == Running && input == old(input) && eax == eax0
      ensures Decode(nr, stack[0]) == Some(SysHalt) ==> state == PoweredOff && eax == eax0
      ensures Decode(nr, stack[0]) == Some(SysExit) ==>
                state == (if IsUserVaddr(stack[1], physBase) then Exited(ToInt32(stack[1])) else Exited(-1))
                && eax == eax0
      ensures Decode(nr, stack[0]) in {Some(SysExec), Some(SysWait)} && !IsUserVaddr(stack[1], physBase) ==>
                state == Exited(-1) && eax == eax0
      ensures Decode(nr, stack[0]) in {Some(SysExec), Some(SysWait)} && IsUserVaddr(stack[1], physBase) ==>
                && state == Running && input == old(input)
                && eax == ToWord(if Decode(nr, stack[0]) == Some(SysExec) then execPid else waitStatus)
      ensures Decode(nr, stack[0]) == Some(SysRead) ==>
                && state == Running
                && (ToInt32(stack[1]) == 0 ==>
                      && 0 <= ToInt32(eax) <= stack[3]
                      && ToInt32(eax) == StdinCount(old(input), StdinLimit(stack[3]))
                      && input == old(input)[StdinConsumed(old(input), StdinLimit(stack[3]))..])
                && (ToInt32(stack[1]) != 0 ==> ToInt32(eax) == -1 && input == old(input))
      ensures Decode(nr, stack[0]) == Some(SysWrite) ==>
                && state == Running && input == old(input)
                && eax == (if ToInt32(stack[1]) == 1 then stack[3] else ToWord(-1))
      ensures Decode(nr, stack[0]) == Some(SysFibo) ==>
                state == Running && input == old(input) && ToInt32(eax) == Fib(ToInt32(stack[1]))
      ensures Decode(nr, stack[0]) == Some(SysMax) ==>
                && state == Running && input == old(input)
                && ToInt32(eax) == Max4(ToInt32(stack[1]), ToInt32(stack[2]), ToInt32(stack[3]), ToInt32(stack[4]))
    {
      eax := eax0;
      var call := Decode(nr, stack[0]);
      if call.None? {
        return;
      }
      AllUserSingle(stack[1], physBase);
      CheckWords(CheckedWords1(call.value, stack));
      if state != Running {
        return;
      }
      match call.value
      case SysHalt =>
        state := PoweredOff;
      case SysExit =>
        Exit(ToInt32(stack[1]));
      case SysExec =>
        eax := ToWord(execPid);
      case SysWait =>
        eax := ToWord(waitStatus);
      case SysRead =>
        var r := Read(ToInt32(stack[1]), stack[3]);
        IntRoundTrip(r);
        eax := ToWord(r);
      case SysWrite =>
        eax := ToWord(Write1(ToInt32(stack[1]), stack[3]));
      case SysFibo =>
        var n := ToInt32(stack[1]);
        FibFitsInt32(n);
        IntRoundTrip(Fib(n));
        eax := ToWord(Fib(n));
      case SysMax =>
        var m := Max4(ToInt32(stack[1]), ToInt32(stack[2]), ToInt32(stack[3]), ToInt32(stack[4]));
        IntRoundTrip(m);
        eax := ToWord(m);
      case _ =>
    }
  }
}
