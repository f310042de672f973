/** The standard-input path of `sys_read` (fd 0): keystrokes are taken one at
    a time with `input_getc` until a NUL byte arrives or the limit is reached,
    and their number is returned. */
module Console {
  import opened Machine

  /** The keyboard holds enough keystrokes for the read to finish: either
      `limit` of them or a NUL somewhere.  Otherwise `input_getc` would block. */
  predicate Supplies(input: seq<Byte>, limit: nat)
  {
    limit <= |input| || 0 in input
  }

  /** The value the read returns: the number of keystrokes before the first
      NUL, capped at `limit`. */
  function StdinCount(input: seq<Byte>, limit: nat): (n: nat)
    requires Supplies(input, limit)
    ensures n <= limit && n <= |input|
    ensures forall j :: 0 <= j < n ==> input[j] != 0
    ensures n < limit ==> n < |input| && input[n] == 0
    decreases limit
  {
    if limit == 0 || input[0] == 0 then 0
    else
      assert 0 in input ==> 0 in input[1..] by {
        if 0 in input {
          var k :| 0 <= k < |input| && input[k] == 0;
          assert input[1..][k - 1] == 0;
        }
      }
      1 + StdinCount(input[1..], limit - 1)
  }

  /** How many keystrokes the read takes off the keyboard: the counted ones,
      plus the terminating NUL when the loop stopped on one. */
  function StdinConsumed(input: seq<Byte>, limit: nat): (k: nat)
    requires Supplies(input, limit)
    ensures k <= |input|
    ensures StdinCount(input, limit) < limit ==>
              k == StdinCount(input, limit) + 1 && input[k - 1] == 0
    ensures StdinCount(input, limit) == limit ==> k == limit
  {
    var n := StdinCount(input, limit);
    if n < limit then n + 1 else n
  }

  /** The counting loop of the fd 0 read: one `input_getc` per turn, leaving
      the loop on a NUL (which is taken but not counted) or at the limit. */
  method CountInput(input: seq<Byte>, limit: nat) returns (count: nat, consumed: nat)
    requires Supplies(input, limit)
    ensures count == StdinCount(input, limit)
    ensures consumed == StdinConsumed(input, limit)
  {
    count := 0;
    consumed := 0;
    while count < limit
      invariant count <= limit && count <= |input|
      invariant consumed == count
      invariant forall j :: 0 <= j < count ==> input[j] != 0
      invariant StdinCount(input, limit) >= count
    {
      var c := input[consumed];
      consumed := consumed + 1;
      if c == 0 {
        break;
      }
      count := count + 1;
    }
  }
}
