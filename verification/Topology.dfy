/** Rebuilding the parents of all slaves from nothing but their link counts.

    The scan runs backwards from a slave and keeps a counter: an end point takes one away, a
    split point adds one, a cross point adds two.  It stops at the first slave that is not an
    end point with the counter at or above zero, and at slave 1 in any case.
  */
module Topology {
  import opened SlaveTree

  /** What one slave adds to the counter. */
  function Weight(links: int): int
  {
    if links == 1 then -1 else if links == 3 then 1 else if links == 4 then 2 else 0
  }

  /** The slave at which the scan stops when it is about to look at slave `j`. */
  function Scan(links: seq<int>, j: nat, counter: int): nat
    requires 1 <= j < |links|
    decreases j
  {
    var now := counter + Weight(links[j]);
    if (now >= 0 && links[j] > 1) || j == 1 then j else Scan(links, j - 1, now)
  }

  function ParentOf(links: seq<int>, slave: nat): nat
    requires slave < |links|
  {
    if slave <= 1 then 0 else Scan(links, slave - 1, 0)
  }

  /** Fills in the parent of every slave, one backward scan each. */
  method FindParents(links: array<int>, parent: array<nat>)
    requires links.Length == parent.Length >= 1
    requires (links as object) != parent
    modifies parent
    ensures parent[0] == old(parent[0])
    ensures forall i :: 1 <= i < parent.Length ==> parent[i] == ParentOf(links[..], i)
  {
    for slave := 1 to links.Length
      invariant parent[0] == old(parent[0])
      invariant forall i :: 1 <= i < slave ==> parent[i] == ParentOf(links[..], i)
    {
      parent[slave] := 0;
      if slave > 1 {
        var counter, slavec := 0, slave - 1;
        while slavec > 0
          invariant 0 <= slavec < slave
          invariant slavec > 0 ==> Scan(links[..], slavec, counter) == Scan(links[..], slave - 1, 0)
          invariant slavec == 0 ==> parent[slave] == Scan(links[..], slave - 1, 0)
          invariant parent[0] == old(parent[0])
          invariant forall i :: 1 <= i < slave ==> parent[i] == ParentOf(links[..], i)
          decreases slavec
        {
          var topology := links[slavec];
          if topology == 1 {
            counter := counter - 1;
          }
          if topology == 3 {
            counter := counter + 1;
          }
          if topology == 4 {
            counter := counter + 2;
          }
          if (counter >= 0 && topology > 1) || slavec == 1 {
            parent[slave] := slavec;
            slavec := 1;
          }
          slavec := slavec - 1;
        }
      }
    }
  }

  function Links(st: seq<Station>): (links: seq<int>)
    ensures |links| == |st|
    ensures forall i :: 0 <= i < |st| ==> links[i] == st[i].links
  {
    seq(|st|, i requires 0 <= i < |st| => st[i].links)
  }

  /** What the slaves in [lo, hi) add to the counter together. */
  function Sum(st: seq<Station>, lo: nat, hi: nat): int
    requires hi <= |st|
    decreases hi - lo
  {
    if lo >= hi then 0 else Weight(st[lo].links) + Sum(st, lo + 1, hi)
  }

  /** However far a scan that entered [lo, hi) at the top has come down, its counter is negative. */
  predicate Sinking(st: seq<Station>, lo: nat, hi: nat)
    requires hi <= |st|
  {
    forall j :: lo <= j < hi ==> Sum(st, j, hi) < 0
  }

  lemma {:induction false} SumSplits(st: seq<Station>, lo: nat, mid: nat, hi: nat)
    requires lo <= mid <= hi <= |st|
    ensures Sum(st, lo, hi) == Sum(st, lo, mid) + Sum(st, mid, hi)
    decreases mid - lo
  {
    if lo < mid {
      SumSplits(st, lo + 1, mid, hi);
    }
  }

  lemma {:induction false} SinkingJoins(st: seq<Station>, lo: nat, mid: nat, hi: nat)
    requires lo <= mid <= hi <= |st|
    requires Sinking(st, lo, mid) && Sinking(st, mid, hi) && Sum(st, mid, hi) <= 0
    ensures Sinking(st, lo, hi)
  {
    forall j | lo <= j < hi ensures Sum(st, j, hi) < 0 {
      if j < mid {
        SumSplits(st, j, mid, hi);
      }
    }
  }

  /** A slave with its branches complete behind it: three stretches and the slave below them. */
  lemma {:induction false} NodeSinks(st: seq<Station>, pos: nat, pos1: nat, pos2: nat, end: nat, k3: nat, k1: nat,
          k2: nat)
    requires pos < pos1 <= pos2 <= end <= |st|
    requires k3 <= 1 && k1 <= 1 && k2 <= 1 && st[pos].links == 1 + k3 + k1 + k2
    requires Sum(st, pos + 1, pos1) + k3 == 0 && Sinking(st, pos + 1, pos1)
    requires Sum(st, pos1, pos2) + k1 == 0 && Sinking(st, pos1, pos2)
    requires Sum(st, pos2, end) + k2 == 0 && Sinking(st, pos2, end)
    ensures Sum(st, pos, end) == -1 && Sinking(st, pos, end)
  {
    SumSplits(st, pos1, pos2, end);
    SinkingJoins(st, pos1, pos2, end);
    SumSplits(st, pos + 1, pos1, end);
    SinkingJoins(st, pos + 1, pos1, end);
  }

  /** A complete subtree takes exactly one off the counter, and every way of leaving it half
      scanned leaves the counter below where it started. */
  lemma {:induction false} SubtreeSinks(t: Tree, st: seq<Station>, pos: nat, parent: nat, port: nat, at: int)
    requires Laid(t, st, pos, parent, port, at)
    ensures pos + Size(t) <= |st|
    ensures Sum(st, pos, pos + Size(t)) == -1 && Sinking(st, pos, pos + Size(t))
    decreases t
  {
    var pos1 := pos + 1 + SizeBehind(t.port3);
    var pos2 := pos1 + SizeBehind(t.port1);
    BranchSinks(t.port3, st, pos + 1, pos, 3, at);
    BranchSinks(t.port1, st, pos1, pos, 1, at + RoundTrip(t.port3));
    BranchSinks(t.port2, st, pos2, pos, 2, at + RoundTrip(t.port3) + RoundTrip(t.port1));
    NodeSinks(st, pos, pos1, pos2, pos2 + SizeBehind(t.port2), Count(t.port3), Count(t.port1), Count(t.port2));
  }

  lemma {:induction false} BranchSinks(l: Link, st: seq<Station>, pos: nat, parent: nat, port: nat, at: int)
    requires LaidBehind(l, st, pos, parent, port, at)
    ensures pos + SizeBehind(l) <= |st|
    ensures Sum(st, pos, pos + SizeBehind(l)) + Count(l) == 0 && Sinking(st, pos, pos + SizeBehind(l))
    decreases l
  {
    match l
    case Closed(_) =>
    case Open(delay, sub) => SubtreeSinks(sub, st, pos, parent, port, at + delay);
  }

  /** A scan that starts just above a sinking stretch passes it and looks at the slave below. */
  lemma {:induction false} ScanPasses(st: seq<Station>, lo: nat, j: nat, hi: nat)
    requires 1 < lo <= j + 1 <= hi <= |st| && Sinking(st, lo, hi)
    ensures Scan(Links(st), j, Sum(st, j + 1, hi)) == Scan(Links(st), lo - 1, Sum(st, lo, hi))
    decreases j
  {
    if lo <= j {
      assert Sum(st, j, hi) == Weight(st[j].links) + Sum(st, j + 1, hi);
      ScanPasses(st, lo, j - 1, hi);
    }
  }

  /** The first slave of a branch finds its parent, whatever branches lie in between. */
  lemma {:induction false} RootFindsParent(st: seq<Station>, parent: nat, pos: nat)
    requires 1 <= parent < pos < |st| && Sinking(st, parent + 1, pos)
    requires st[parent].links > 1 && Weight(st[parent].links) + Sum(st, parent + 1, pos) >= 0
    ensures ParentOf(Links(st), pos) == parent
  {
    ScanPasses(st, parent + 1, pos - 1, pos);
  }

  /** The stretches between a slave and the first slave of its second and third branch. */
  lemma {:induction false} BranchesBetween(t: Tree, st: seq<Station>, pos: nat, parent: nat, port: nat, at: int)
    requires Laid(t, st, pos, parent, port, at)
    ensures var pos1 := pos + 1 + SizeBehind(t.port3);
            pos1 <= |st| && Sinking(st, pos + 1, pos1) && Sum(st, pos + 1, pos1) + Count(t.port3) == 0
    ensures var pos2 := pos + 1 + SizeBehind(t.port3) + SizeBehind(t.port1);
            pos2 <= |st| && Sinking(st, pos + 1, pos2) && Sum(st, pos + 1, pos2) + Count(t.port3) + Count(t.port1) == 0
  {
    var pos1 := pos + 1 + SizeBehind(t.port3);
    var pos2 := pos1 + SizeBehind(t.port1);
    BranchSinks(t.port3, st, pos + 1, pos, 3, at);
    BranchSinks(t.port1, st, pos1, pos, 1, at + RoundTrip(t.port3));
    SumSplits(st, pos + 1, pos1, pos2);
    SinkingJoins(st, pos + 1, pos1, pos2);
  }

  /** Slaves [lo, hi) are all scanned to their tree parent. */
  predicate AllFound(st: seq<Station>, lo: nat, hi: nat)
  {
    hi <= |st| && forall i :: lo <= i < hi ==> ParentOf(Links(st), i) == st[i].parent
  }

  lemma {:induction false} SubtreeParents(t: Tree, st: seq<Station>, pos: nat, parent: nat, port: nat, at: int)
    requires 1 <= pos && Laid(t, st, pos, parent, port, at)
    ensures AllFound(st, pos + 1, pos + Size(t))
    decreases t
  {
    hide Laid, LaidBehind, ParentOf, Links, RoundTrip, SizeBehind, Size;
    BranchesBetween(t, st, pos, parent, port, at);
    LaidParts(t, st, pos, parent, port, at);
    var pos1 := pos + 1 + SizeBehind(t.port3);
    var pos2 := pos1 + SizeBehind(t.port1);
    BranchParents(t.port3, st, pos + 1, pos, 3, at);
    BranchParents(t.port1, st, pos1, pos, 1, at + RoundTrip(t.port3));
    BranchParents(t.port2, st, pos2, pos, 2, at + (RoundTrip(t.port3) + RoundTrip(t.port1)));
  }

  lemma {:induction false} BranchParents(l: Link, st: seq<Station>, pos: nat, parent: nat, port: nat, at: int)
    requires 1 <= parent < pos && LaidBehind(l, st, pos, parent, port, at)
    requires Sinking(st, parent + 1, pos)
    requires l.Open? ==> st[parent].links > 1 && Weight(st[parent].links) + Sum(st, parent + 1, pos) >= 0
    ensures AllFound(st, pos, pos + SizeBehind(l))
    decreases l
  {
    match l
    case Closed(_) =>
    case Open(delay, sub) =>
      RootFindsParent(st, parent, pos);
      SubtreeParents(sub, st, pos, parent, port, at + delay);
  }

  /** For every tree, the scan over the link counts gives every slave its parent in the tree. */
  lemma {:induction false} ParentsAreTreeParents(t: Tree, st: seq<Station>, at: int)
    requires Segment(t, st, at)
    ensures forall i :: 1 <= i < |st| ==> ParentOf(Links(st), i) == st[i].parent
  {
    SubtreeParents(t, st, 1, 0, 0, at);
  }
}
