/**
 What several parts of the model share.
 */
module Common {
  datatype Option<+T> = None | Some(value: T)

  const MAX_CLIENTS: nat := 50
  const MAX_ROOMS: nat := 32
  const MAX_QUEUED_TASKS: nat := 256

  function Abs(x: int): nat {
    if x < 0 then -x else x
  }

  // The place `i` after `head` in a circular buffer.
  function Around(capacity: nat, head: nat, i: nat): (k: nat)
    requires head < capacity && i <= capacity
    ensures k < capacity
  {
    if head + i < capacity then head + i else head + i - capacity
  }

  lemma TakenOut<T>(xs: seq<T>, i: nat)
    requires i < |xs|
    ensures multiset(xs[..i] + xs[i + 1..]) == multiset(xs) - multiset{xs[i]}
  {
    assert xs == xs[..i] + [xs[i]] + xs[i + 1..];
  }
}
