/** The 32-bit machine view shared by both snapshots of the system-call layer:
    stack words, the signed/unsigned casts the handler performs on them, the
    user-address test behind `check_address`, the decoded system-call
    numbers and the life cycle of a process. */
module Machine {

  const WORD_MOD: int := 0x1_0000_0000
  const INT_MIN: int := -0x8000_0000
  const INT_MAX: int := 0x7FFF_FFFF

  /** A `uint32_t` read from the trapping process's stack. */
  type Word = w: int | 0 <= w < 0x1_0000_0000

  /** A byte of console input (`uint8_t`). */
  type Byte = b: int | 0 <= b < 256

  /** An opaque handle standing for a `struct file *` that the file system
      hands out; the model never looks inside it. */
  type FileId = nat

  datatype Option<T> = None | Some(value: T)

  /** The `(int)` cast of a word: two's-complement reinterpretation. */
  function ToInt32(w: Word): (x: int)
    ensures INT_MIN <= x <= INT_MAX
    ensures 0 <= x ==> x == w
    ensures x < 0 ==> x == w - WORD_MOD
  {
    if w <= INT_MAX then w else w - WORD_MOD
  }

  /** Storing an `int` into the 32-bit `eax` slot of the trap frame: the value
      modulo 2^32. */
  function ToWord(x: int): (w: Word)
    ensures (w - x) % WORD_MOD == 0
  {
    x % WORD_MOD
  }

  /** Reading a word as `int` and storing it back gives the same word. */
  lemma WordRoundTrip(w: Word)
    ensures ToWord(ToInt32(w)) == w
  {
  }

  /** Storing an in-range `int` and reading it back as `int` gives it back. */
  lemma IntRoundTrip(x: int)
    requires INT_MIN <= x <= INT_MAX
    ensures ToInt32(ToWord(x)) == x
  {
    if x < 0 {
      assert ToWord(x) == x + WORD_MOD;
    }
  }

  /** `is_user_vaddr`: an address is a user address when it lies below
      PHYS_BASE.  PHYS_BASE is a parameter of the model. */
  predicate IsUserVaddr(v: Word, physBase: nat)
  {
    v < physBase
  }

  /** Every word of `ws` passes `is_user_vaddr`. */
  predicate AllUser(ws: seq<Word>, physBase: nat)
  {
    forall k :: 0 <= k < |ws| ==> IsUserVaddr(ws[k], physBase)
  }

  lemma AllUserSingle(w: Word, physBase: nat)
    ensures AllUser([w], physBase) <==> IsUserVaddr(w, physBase)
  {
    assert [w][0] == w;
  }

  /** The life cycle of the calling process as far as this layer can see it:
      still running, terminated through `sys_exit` with a status, or the
      machine powered off by `halt`. */
  datatype ProcState = Running | Exited(status: int) | PoweredOff

  /** The system calls the handlers know by name. */
  datatype Call =
    | SysHalt | SysExit | SysExec | SysWait | SysRead | SysWrite
    | SysFibo | SysMax | SysOpen | SysClose | SysCreate | SysRemove
    | SysFilesize | SysSeek | SysTell

  /** The word-0 switch: the number table is a parameter; a number that is
      not in it matches no case. */
  function Decode(nr: map<Word, Call>, w: Word): Option<Call>
  {
    if w in nr then Some(nr[w]) else None
  }
}
