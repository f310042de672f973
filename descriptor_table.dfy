/** Value-level view of the per-process descriptor table `fd[128]`: a
    sequence of slots, each empty (`NULL`) or holding an open file.  Slots
    0, 1 and 2 are reserved: every scan of the table starts at 3. */
module DescriptorTable {
  import opened Machine

  /** The number of slots in `struct thread`'s `fd` array. */
  const NFD: nat := 128
  /** The first slot `sys_open` hands out and `sys_exit` sweeps. */
  const FIRST_FD: nat := 3

  type Table = seq<Option<FileId>>

  /** The table of a process that has not opened anything, or that has been
      swept by `sys_exit`. */
  function EmptyTable(): (t: Table)
    ensures |t| == NFD
    ensures forall i :: 0 <= i < NFD ==> t[i] == None
  {
    seq(NFD, _ => None)
  }

  /** The slot the open scan lands on: the least empty index at or after
      `from`, or None when every slot from there on is occupied. */
  function FirstFree(t: Table, from: nat): (r: Option<nat>)
    ensures r.Some? ==> from <= r.value < |t| && t[r.value] == None
    ensures r.Some? ==> forall j :: from <= j < r.value ==> t[j].Some?
    ensures r.None? ==> forall j :: from <= j < |t| ==> t[j].Some?
    decreases |t| - from
  {
    if from >= |t| then None
    else if t[from] == None then Some(from)
    else FirstFree(t, from + 1)
  }

  /** The files held in the general-purpose slots below `hi`, in slot order:
      what the exit sweep closes when it has reached `hi`. */
  function OpenFiles(t: Table, hi: nat): (fs: seq<FileId>)
    requires hi <= |t|
    ensures forall f :: f in fs ==> exists i :: FIRST_FD <= i < hi && t[i] == Some(f)
    ensures forall i :: FIRST_FD <= i < hi && t[i].Some? ==> t[i].value in fs
    ensures |fs| <= hi
  {
    if hi <= FIRST_FD then []
    else OpenFiles(t, hi - 1) + (match t[hi - 1] case Some(f) => [f] case None => [])
  }

  /** No file is held by two slots. */
  predicate Distinct(t: Table)
  {
    forall i, j :: 0 <= i < j < |t| && t[i].Some? ==> t[i] != t[j]
  }

  /** Storing a file that the table does not hold keeps the slots distinct. */
  lemma {:induction false} StoreKeepsDistinct(t: Table, i: nat, f: FileId)
    requires Distinct(t) && i < |t| && Some(f) !in t
    ensures Distinct(t[i := Some(f)])
  {
    var u := t[i := Some(f)];
    forall a, b | 0 <= a < b < |u| && u[a].Some?
      ensures u[a] != u[b]
    {
      if a == i {
        assert u[b] == t[b];
      } else if b == i {
        assert u[a] == t[a];
      }
    }
  }

  /** Emptying a slot keeps the slots distinct. */
  lemma {:induction false} ClearKeepsDistinct(t: Table, i: nat)
    requires Distinct(t) && i < |t|
    ensures Distinct(t[i := None])
  {
    var u := t[i := None];
    forall a, b | 0 <= a < b < |u| && u[a].Some?
      ensures u[a] != u[b]
    {
      assert u[a] == t[a];
    }
  }

  /** When the slots are distinct the sweep closes every file once. */
  lemma {:induction false} OpenFilesNoRepeats(t: Table, hi: nat)
    requires hi <= |t| && Distinct(t)
    ensures forall a, b :: 0 <= a < b < |OpenFiles(t, hi)| ==> OpenFiles(t, hi)[a] != OpenFiles(t, hi)[b]
  {
    if hi > FIRST_FD {
      OpenFilesNoRepeats(t, hi - 1);
      var fs := OpenFiles(t, hi - 1);
      if t[hi - 1].Some? {
        var f := t[hi - 1].value;
        forall x | x in fs
          ensures x != f
        {
          var i :| FIRST_FD <= i < hi - 1 && t[i] == Some(x);
        }
      }
    }
  }
}
