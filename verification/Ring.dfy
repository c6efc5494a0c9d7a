/** Index arithmetic of a ring of `n` entries with a window that starts at `tail`, and the
    counting argument that goes with it. */
module Ring {

  function Next(k: nat, n: nat): nat
  {
    if k + 1 >= n then 0 else k + 1
  }

  /** The entry `j` places after `tail`. */
  function At(tail: nat, j: nat, n: nat): nat
  {
    if tail + j >= n then tail + j - n else tail + j
  }

  /** How many places after `tail` entry `k` comes. */
  function Offset(tail: nat, k: nat, n: nat): int
  {
    if k >= tail then k - tail else k + n - tail
  }

  /** Entry `k` lies in the window of `count` entries from `tail` on. */
  predicate InWindow(tail: nat, count: nat, n: nat, k: nat)
  {
    k < n && Offset(tail, k, n) < count
  }

  /** The head comes right after the window. */
  predicate IsRing(head: nat, tail: nat, count: nat, n: nat)
  {
    0 < n && tail < n && count <= n && head == At(tail, count, n) && head < n
  }

  predicate Distinct(s: seq<nat>)
  {
    forall i, j :: 0 <= i < j < |s| ==> s[i] != s[j]
  }

  /** At most `n` different numbers are below `n`. */
  lemma {:induction false} Pigeonhole(s: seq<nat>, n: nat)
    requires Distinct(s) && forall i :: 0 <= i < |s| ==> s[i] < n
    ensures |s| <= n
    decreases n
  {
    if |s| > 0 {
      assert s[0] < n;
      if n - 1 in s {
        var i :| 0 <= i < |s| && s[i] == n - 1;
        Pigeonhole(s[..i] + s[i + 1..], n - 1);
      } else {
        Pigeonhole(s, n - 1);
      }
    }
  }
}
