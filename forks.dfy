/**
 * Fork indexing around the ring of philosophers.
 *
 * Philosopher i eats with fork i on its left and fork (i + 1) mod n on its
 * right, so fork k is shared by philosopher k (its left fork) and the
 * philosopher seated before it (its right fork).  A philosopher addresses
 * its two forks as the ordered pair (lower index, higher index), and tests
 * and takes both within one turn; it is this taking of the pair at once that
 * keeps anybody from holding one fork while waiting for the other.
 */
module Forks {

  /** Index of the right-hand fork of philosopher i at a table of n seats. */
  function Right(n: nat, i: nat): (r: nat)
    requires i < n
    ensures r < n
    ensures r == if i + 1 < n then i + 1 else 0
  {
    (i + 1) % n
  }

  /** The philosopher whose right-hand fork is fork k. */
  function Prev(n: nat, k: nat): (r: nat)
    requires k < n
    ensures r < n && Right(n, r) == k
  {
    if k == 0 then n - 1 else k - 1
  }

  lemma PrevOfRight(n: nat, i: nat)
    requires i < n
    ensures Prev(n, Right(n, i)) == i
  {
  }

  /** With at least two seats, a philosopher's two forks are different forks. */
  lemma RightIsOtherFork(n: nat, i: nat)
    requires 2 <= n && i < n
    ensures Right(n, i) != i
  {
  }

  function Min(a: nat, b: nat): nat { if a <= b then a else b }
  function Max(a: nat, b: nat): nat { if a <= b then b else a }

  /**
   * The order in which philosopher i takes (and releases) its forks: the
   * lower-indexed fork first, the higher-indexed one second.
   */
  function ForkOrder(n: nat, i: nat): (r: (nat, nat))
    requires 2 <= n && i < n
    ensures r.0 < r.1 < n
    ensures {r.0, r.1} == {i, Right(n, i)}
  {
    var leftFork, rightFork := i, Right(n, i);
    (Min(leftFork, rightFork), Max(leftFork, rightFork))
  }
}
