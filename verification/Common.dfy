/** Shared result types. */
module Common {

  datatype Option<+T> = None | Some(value: T)

  datatype Result<+T, +E> = Ok(value: T) | Err(error: E)

  /** How the replacement of a file ends. A failed write leaves the old or the new content behind. */
  datatype Write = Done | FailedOld | FailedNew

  /** What holds at one moment and survives every step holds later. */
  lemma {:induction false} Persists(flags: seq<bool>, i: nat, j: nat)
    requires i <= j < |flags| && flags[i] && forall k | i <= k < j :: flags[k] ==> flags[k + 1]
    ensures flags[j]
    decreases j - i
  {
    if i < j {
      Persists(flags, i, j - 1);
    }
  }
}
