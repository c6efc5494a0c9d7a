/** Measuring the propagation delay of every distributed-clock slave.

    All slaves latch the receive times of one broadcast frame.  Slaves are then visited in
    order; each finds the parent port its cable is on by taking the first port its parent has
    left, and computes its delay from its own and its parent's latched times.
  */
module DistributedClocks {
  import opened SlaveTree

  /** The fields of a slave record that delay measurement reads and writes.  `regs` are the
      receive-time registers of the slave itself, `times` the copies in the master. */
  datatype Dc = Dc(topology: nat, active: Ports, hasdc: bool, parent: nat, regs: Latch,
                   times: Latch, consumed: Ports, entryport: nat, parentport: nat, pdelay: int)

  function Without(p: Ports, port: nat): Ports
  {
    match port
    case 0 => p.(p0 := false)
    case 1 => p.(p1 := false)
    case 2 => p.(p2 := false)
    case 3 => p.(p3 := false)
    case _ => p
  }

  function PortTime(l: Latch, port: nat): int
  {
    match port case 0 => l.a case 1 => l.b case 2 => l.c case 3 => l.d case _ => 0
  }

  /** The active port the frame came from when it reached `port`; `port` itself if it is alone. */
  function PrevPort(p: Ports, port: nat): nat
  {
    match port
    case 0 => if p.p2 then 2 else if p.p1 then 1 else if p.p3 then 3 else 0
    case 1 => if p.p3 then 3 else if p.p0 then 0 else if p.p2 then 2 else 1
    case 2 => if p.p1 then 1 else if p.p3 then 3 else if p.p0 then 0 else 2
    case 3 => if p.p0 then 0 else if p.p2 then 2 else if p.p1 then 1 else 3
    case _ => port
  }

  /** The port the next child is on: the first one left in the order 3, 1, 2, 0. */
  function FirstLeft(p: Ports): nat
  {
    if p.p3 then 3 else if p.p1 then 1 else if p.p2 then 2 else 0
  }

  /** The active port with the lowest time; the first in visiting order among equals. */
  function EntryPort(p: Ports, l: Latch): nat
  {
    var list := (if p.p0 then [0] else []) + (if p.p3 then [3] else [])
                + (if p.p1 then [1] else []) + (if p.p2 then [2] else []);
    if |list| == 0 then 0 else Lowest(list, l, 0, 1)
  }

  function Lowest(list: seq<nat>, l: Latch, best: nat, next: nat): nat
    requires best < |list|
    decreases |list| - next
  {
    if next >= |list| then list[best]
    else Lowest(list, l, if PortTime(l, list[next]) < PortTime(l, list[best]) then next else best, next + 1)
  }

  /** C division by two: towards zero. */
  function Half(x: int): (h: int)
    ensures x >= 0 ==> 2 * h <= x <= 2 * h + 1
    ensures x < 0 ==> 2 * h - 1 <= x <= 2 * h
  {
    if x >= 0 then x / 2 else -(-x / 2)
  }

  /** Every parent has a lower number than its child. */
  predicate Ordered(ss: seq<Dc>)
  {
    forall i :: 1 <= i < |ss| ==> ss[i].parent < i
  }

  /** The nearest ancestor with a clock, 0 if there is none, and the last slave before it. */
  function DcParent(ss: seq<Dc>, child: nat): (r: (nat, nat))
    requires Ordered(ss) && 1 <= child < |ss|
    ensures r.0 < r.1 <= child
    decreases child
  {
    var parent := ss[child].parent;
    if parent == 0 || ss[parent].hasdc then (parent, child) else DcParent(ss, parent)
  }

  /** Delay of slave `s` behind `port` of parent `p`; `later` when it is not the first child. */
  function Delay(s: Dc, p: Dc, port: nat, later: bool): int
  {
    var dt3 := PortTime(p.times, port) - PortTime(p.times, PrevPort(p.active, port));
    var dt1 := if s.topology > 1
               then PortTime(s.times, PrevPort(s.active, s.entryport)) - PortTime(s.times, s.entryport) else 0;
    var inner := if dt1 > dt3 then -dt1 else dt1;
    var dt2 := if later
               then PortTime(p.times, PrevPort(p.active, port)) - PortTime(p.times, p.entryport) else 0;
    Half(dt3 - inner) + (if dt2 < 0 then -dt2 else dt2) + p.pdelay
  }

  /** A slave after its times are read and its entry port is taken out. */
  function Latched(s: Dc): Dc
  {
    var entry := EntryPort(s.active, s.regs);
    s.(times := s.regs, entryport := entry, consumed := Without(s.active, entry))
  }

  function TakePort(ss: seq<Dc>, i: nat): seq<Dc>
    requires i < |ss|
  {
    ss[i := ss[i].(consumed := Without(ss[i].consumed, FirstLeft(ss[i].consumed)))]
  }

  /** All slave records and the branch root held for slaves without a clock. */
  datatype Survey = Survey(ss: seq<Dc>, hold: nat)

  predicate Sound(v: Survey)
  {
    Ordered(v.ss) && (v.hold == 0 || v.hold < |v.ss|)
  }

  /** What visiting slave `i` does. */
  function Visit(v: Survey, i: nat): (w: Survey)
    requires Sound(v) && 1 <= i < |v.ss|
    ensures Sound(w) && |w.ss| == |v.ss|
  {
    if v.ss[i].hasdc then
      var (parent, child) := DcParent(v.ss, i);
      var ss := v.ss[i := Latched(v.ss[i])];
      if parent == 0 then Survey(ss, 0) else
      var port := if ss[parent].topology == 1 then ss[parent].entryport else FirstLeft(ss[parent].consumed);
      var taken := TakePort(ss, parent);
      var s := taken[i].(parentport := port);
      Survey(taken[i := s.(pdelay := Delay(s, taken[parent], port, child - parent > 1))], 0)
    else
      var s := v.ss[i];
      var ss := v.ss[i := s.(times := Latch(0, 0, 0, 0), consumed := s.active)];
      var hold := if s.parent > 0 && ss[s.parent].topology > 2 then s.parent else v.hold;
      if hold > 0 && s.topology == 1 then Survey(TakePort(ss, hold), 0) else Survey(ss, hold)
  }

  /** Visiting slaves [i, end) in order. */
  function VisitAll(v: Survey, i: nat, end: nat): (w: Survey)
    requires Sound(v) && 1 <= i && end <= |v.ss|
    ensures Sound(w) && |w.ss| == |v.ss|
    decreases end - i
  {
    if i >= end then v else VisitAll(Visit(v, i), i + 1, end)
  }

  // ----- What the tree says about the latched times -----

  /** The entry port of a slave in a tree is found, and the last active port before it is the one
      the frame comes back on after its whole round through the descendants. */
  lemma {:induction false} EntryAndLastPort(t: Tree, parent: nat, port: nat, at: int)
    requires Cabled(t)
    ensures var x := StationOf(t, parent, port, at);
            EntryPort(x.active, x.latch) == t.entry && Behind(x) == Duration(t)
  {
    var x := StationOf(t, parent, port, at);
    var p, l := x.active, x.latch;
    var list := (if p.p0 then [0] else []) + (if p.p3 then [3] else [])
                + (if p.p1 then [1] else []) + (if p.p2 then [2] else []);
    if t.entry == 0 {
      FirstIsLowest(list, l, 1);
    } else {
      assert list[|list| - 1] == t.entry;
      LastIsLowest(list, l, 0, 1);
    }
  }

  lemma {:induction false} FirstIsLowest(list: seq<nat>, l: Latch, next: nat)
    requires 0 < |list| && forall k :: 0 <= k < |list| ==> PortTime(l, list[k]) >= PortTime(l, list[0])
    ensures Lowest(list, l, 0, next) == list[0]
    decreases |list| - next
  {
    if next < |list| {
      FirstIsLowest(list, l, next + 1);
    }
  }

  lemma {:induction false} LastIsLowest(list: seq<nat>, l: Latch, best: nat, next: nat)
    requires best < next <= |list| && (next == |list| ==> best == |list| - 1)
    requires forall k :: 0 <= k < |list| - 1 ==> PortTime(l, list[k]) > PortTime(l, list[|list| - 1])
    ensures Lowest(list, l, best, next) == list[|list| - 1]
    decreases |list| - next
  {
    if next < |list| {
      LastIsLowest(list, l, if PortTime(l, list[next]) < PortTime(l, list[best]) then next else best, next + 1);
    }
  }

  /** How long the frame had been away from a slave when it came back to the port before `port`. */
  function Before(x: Station, port: nat): int
  {
    PortTime(x.latch, PrevPort(x.active, port)) - PortTime(x.latch, x.entry)
  }

  /** How long the frame was away through `port`. */
  function Round(x: Station, port: nat): int
  {
    PortTime(x.latch, port) - PortTime(x.latch, PrevPort(x.active, port))
  }

  /** How long the frame needed for everything behind a slave. */
  function Behind(x: Station): int
  {
    Before(x, x.entry)
  }

  /** How long the frame is away after it has come back to `port`. */
  function After(x: Station, port: nat): int
  {
    Behind(x) - Before(x, port) - Round(x, port)
  }

  /** Every parent has a lower number than its child. */
  predicate Ranked(st: seq<Station>)
  {
    forall i :: 1 <= i < |st| ==> st[i].parent < i
  }

  /** The nearest slave with a clock above slave `i`, 0 if there is none, and the slave through
      which its branch begins. */
  function Up(st: seq<Station>, i: nat): (r: (nat, nat))
    requires Ranked(st) && 1 <= i < |st|
    ensures r.0 < r.1 <= i && (r.0 > 0 ==> st[r.0].dc)
    decreases i
  {
    var parent := st[i].parent;
    if parent == 0 || st[parent].dc then (parent, i) else Up(st, parent)
  }

  /** Time the frame spends at the slaves without a clock above slave `i`, up to the next one with a
      clock, on branches that it visits before the one to slave `i`; and on those after. */
  function SideBefore(st: seq<Station>, i: nat): int
    requires Ranked(st) && 1 <= i < |st|
    decreases i
  {
    var parent := st[i].parent;
    if parent == 0 || st[parent].dc then 0 else SideBefore(st, parent) + Before(st[parent], st[i].port)
  }

  function SideAfter(st: seq<Station>, i: nat): int
    requires Ranked(st) && 1 <= i < |st|
    decreases i
  {
    var parent := st[i].parent;
    if parent == 0 || st[parent].dc then 0 else SideAfter(st, parent) + After(st[parent], st[i].port)
  }

  /** The branch root that is held when slave `i`, which has no clock, has been looked at. */
  function Hold(st: seq<Station>, i: nat): (h: nat)
    requires Ranked(st) && 1 <= i < |st|
    ensures h < i
    decreases i
  {
    var parent := st[i].parent;
    if parent == 0 then 0
    else if st[parent].links > 2 then parent
    else if st[parent].dc then 0
    else Hold(st, parent)
  }

  /** The slave of which slave `i` takes a port, 0 if there is none: the next one above with a clock
      or, for an end point without a clock, the branch root held. */
  function Taker(st: seq<Station>, i: nat): (d: nat)
    requires Ranked(st) && 1 <= i < |st|
    ensures d < i
  {
    if st[i].dc then Up(st, i).0 else if st[i].links == 1 then Hold(st, i) else 0
  }

  function TakeFirst(p: Ports): Ports
  {
    Without(p, FirstLeft(p))
  }

  /** The ports slave `p` has left when the slaves below number `i` have been visited, and how many
      times one of its ports has been taken. */
  function Left(st: seq<Station>, p: nat, i: nat): Ports
    requires Ranked(st) && p < i <= |st|
    decreases i
  {
    if i == p + 1 then Without(st[p].active, st[p].entry)
    else if Taker(st, i - 1) == p then TakeFirst(Left(st, p, i - 1))
    else Left(st, p, i - 1)
  }

  function Taken(st: seq<Station>, p: nat, i: nat): nat
    requires Ranked(st) && p < i <= |st|
    decreases i
  {
    if i == p + 1 then 0 else Taken(st, p, i - 1) + if Taker(st, i - 1) == p then 1 else 0
  }

  /** A branch hangs on `port`. */
  predicate IsBranch(x: Station, port: nat)
  {
    && port != x.entry && (x.active.p0 ==> x.entry == 0)
    && ((port == 3 && x.active.p3) || (port == 1 && x.active.p1) || (port == 2 && x.active.p2))
  }

  /** How many branches of a slave come before the one on `port`. */
  function Rank(x: Station, port: nat): nat
  {
    (if port != 3 && x.active.p3 && x.entry != 3 then 1 else 0)
    + if port == 2 && x.active.p1 && x.entry != 1 then 1 else 0
  }

  function Drop(p: Ports, n: nat): Ports
  {
    if n == 0 then p else TakeFirst(Drop(p, n - 1))
  }

  lemma {:induction false} LeftDrops(st: seq<Station>, p: nat, i: nat)
    requires Ranked(st) && p < i <= |st|
    ensures Left(st, p, i) == Drop(Without(st[p].active, st[p].entry), Taken(st, p, i))
    decreases i
  {
    hide Taker, TakeFirst, Without;
    if i > p + 1 {
      LeftDrops(st, p, i - 1);
    }
  }

  lemma {:induction false} NoneLeft(p: Ports, n: nat)
    requires !p.p0 && n >= 3
    ensures Drop(p, n) == Ports(false, false, false, false)
    decreases n
  {
    if n == 3 {
      assert Drop(p, 0) == p && Drop(p, 1) == TakeFirst(p) && Drop(p, 2) == TakeFirst(TakeFirst(p));
    } else {
      NoneLeft(p, n - 1);
    }
  }

  /** Ports are taken in the order of the branches, so a branch is found exactly when as many ports
      have been taken as there are branches before it. */
  lemma {:induction false} FoundInTurn(x: Station, port: nat, n: nat)
    requires IsBranch(x, port)
    ensures FirstLeft(Drop(Without(x.active, x.entry), n)) == port <==> n == Rank(x, port)
  {
    var p := Without(x.active, x.entry);
    assert Drop(p, 0) == p && Drop(p, 1) == TakeFirst(p) && Drop(p, 2) == TakeFirst(TakeFirst(p));
    if n >= 3 {
      NoneLeft(p, n);
    }
  }

  /** As many ports of the slave with a clock above have been taken, when slave `i` is visited, as
      that slave has branches before the one of slave `i`. */
  predicate InTurn(st: seq<Station>, i: nat)
    requires Ranked(st) && 1 <= i < |st|
  {
    var (d, c) := Up(st, i);
    d > 0 ==> Taken(st, d, i) == Rank(st[d], st[c].port)
  }

  /** The frame spends as much time on side branches before it reaches slave `i` as after it. */
  predicate Balanced(st: seq<Station>, i: nat)
    requires Ranked(st) && 1 <= i < |st|
  {
    Up(st, i).0 > 0 ==> SideBefore(st, i) == SideAfter(st, i)
  }

  /** An only child comes right after its parent, and the frame goes nowhere else from there. */
  predicate InLine(st: seq<Station>, i: nat)
    requires Ranked(st) && 1 <= i < |st|
  {
    var parent := st[i].parent;
    && st[i].links >= 1
    && if parent == 0 then i == 1 else
         && st[parent].links >= 2 && IsBranch(st[parent], st[i].port)
         && (st[parent].links == 2 ==> parent == i - 1)
         && (st[parent].links == 2 ==> Before(st[parent], st[i].port) == 0 && After(st[parent], st[i].port) == 0)
  }

  /** The round trip from the slave with a clock above, through the branch of slave `i`, is twice the
      way to slave `i`, the time behind that, and the time on side branches. */
  predicate Reached(st: seq<Station>, i: nat)
    requires Ranked(st) && 1 <= i < |st|
  {
    var x, (d, c) := st[i], Up(st, i);
    d > 0 ==>
      var y, port := st[d], st[c].port;
      && IsBranch(y, port) && y.links > 1 && Before(y, port) >= 0 && (c == d + 1 ==> Before(y, port) == 0)
      && SideBefore(st, i) >= 0 && SideAfter(st, i) >= 0 && SideBefore(st, i) % 2 == 0 && SideAfter(st, i) % 2 == 0
      && x.arrival >= y.arrival + Before(y, port) + SideBefore(st, i)
      && Round(y, port) == Behind(x) + 2 * (x.arrival - y.arrival - Before(y, port) - SideBefore(st, i))
                           + SideBefore(st, i) + SideAfter(st, i)
  }

  /** What the tree says of slave `i`. */
  predicate Fits(st: seq<Station>, i: nat)
    requires Ranked(st) && 1 <= i < |st|
  {
    var x := st[i];
    && InLine(st, i) && Reached(st, i) && EntryPort(x.active, x.latch) == x.entry
    && Behind(x) >= 0 && (x.links == 1 ==> Behind(x) == 0)
  }

  predicate AllFit(st: seq<Station>, lo: nat, hi: nat)
    requires Ranked(st)
  {
    1 <= lo && hi <= |st| && forall i :: lo <= i < hi ==> Fits(st, i)
  }

  lemma {:induction false} RoundTripEven(l: Link)
    ensures RoundTrip(l) % 2 == 0
    decreases l
  {
    if l.Open? {
      DurationEven(l.sub);
    }
  }

  lemma {:induction false} DurationEven(t: Tree)
    ensures Duration(t) % 2 == 0
    decreases t
  {
    RoundTripEven(t.port3);
    RoundTripEven(t.port1);
    RoundTripEven(t.port2);
  }

  /** The ports of a slave, one after the other. */
  lemma {:induction false} PortsInTurn(t: Tree, x: Station, parent: nat, port: nat, at: int)
    requires x == StationOf(t, parent, port, at) && Cabled(t)
    ensures x.links == 1 + Children(t) && Behind(x) == Duration(t) && (x.active.p0 ==> x.entry == 0)
    ensures t.port3.Open? ==>
              IsBranch(x, 3) && Before(x, 3) == 0 && Round(x, 3) == RoundTrip(t.port3) && Rank(x, 3) == 0
    ensures t.port1.Open? ==>
              && IsBranch(x, 1) && Before(x, 1) == RoundTrip(t.port3) && Round(x, 1) == RoundTrip(t.port1)
              && Rank(x, 1) == Count(t.port3)
    ensures t.port2.Open? ==>
              && IsBranch(x, 2) && Before(x, 2) == RoundTrip(t.port3) + RoundTrip(t.port1)
              && Round(x, 2) == RoundTrip(t.port2) && Rank(x, 2) == Count(t.port3) + Count(t.port1)
  {
    hide EntryPort;
    EntryAndLastPort(t, parent, port, at);
  }

  /** What is known of slave `pos` goes on to the slave at its port `out`. */
  lemma {:induction false} ReachNext(st: seq<Station>, pos: nat, next: nat, out: nat, delay: nat)
    requires Ranked(st) && 1 <= pos < next < |st| && st[next].parent == pos && st[next].port == out
    requires IsBranch(st[pos], out) && st[pos].links > 1
    requires Before(st[pos], out) >= 0 && Before(st[pos], out) % 2 == 0
    requires next == pos + 1 ==> Before(st[pos], out) == 0
    requires After(st[pos], out) >= 0 && After(st[pos], out) % 2 == 0
    requires st[next].arrival == st[pos].arrival + Before(st[pos], out) + delay
    requires Round(st[pos], out) == 2 * delay + Behind(st[next])
    requires Reached(st, pos)
    ensures Reached(st, next)
  {
    hide Before, Round, Behind, IsBranch;
  }

  /** Branch `l` hangs on port `out` of slave `x`, and the frame is away for `before` in the branches
      before it. */
  predicate Begins(l: Link, x: Station, out: nat, before: int)
  {
    && IsBranch(x, out) && x.links > 1 && Round(x, out) == RoundTrip(l)
    && Before(x, out) == before && before >= 0 && before % 2 == 0 && After(x, out) >= 0 && After(x, out) % 2 == 0
    && (x.links == 2 ==> before == 0 && After(x, out) == 0)
  }

  /** The slaves of a branch fit. */
  lemma {:induction false} BranchFits(l: Link, st: seq<Station>, pos: nat, parent: nat, out: nat, before: int)
    requires Ranked(st) && 1 <= parent < pos <= |st| && Fits(st, parent) && BehindCabled(l)
    requires LaidBehind(l, st, pos, parent, out, st[parent].arrival + before)
    requires l.Open? ==> Begins(l, st[parent], out, before) && (pos == parent + 1 ==> before == 0)
    requires l.Open? && st[parent].links == 2 ==> pos == parent + 1
    ensures AllFit(st, pos, pos + SizeBehind(l))
    decreases l, 0
  {
    if l.Open? {
      hide Laid, AllCabled, Before, Round, After, IsBranch, EntryPort, AllFit, Reached, Behind;
      var at := st[parent].arrival + before + l.delay;
      LaidParts(l.sub, st, pos, parent, out, at);
      CabledParts(l.sub);
      PortsInTurn(l.sub, st[pos], parent, out, at);
      EntryAndLastPort(l.sub, parent, out, at);
      FitsReached(st, parent);
      ReachNext(st, parent, pos, out, l.delay);
      NoneBehindEndPoint(l.sub);
      assert Fits(st, pos);
      SlaveFits(l.sub, st, pos, parent, out);
    }
  }

  lemma {:induction false} FitsReached(st: seq<Station>, i: nat)
    requires Ranked(st) && 1 <= i < |st| && Fits(st, i)
    ensures Reached(st, i)
  {
  }

  lemma {:induction false} NoneBehindEndPoint(t: Tree)
    ensures Children(t) == 0 ==> Duration(t) == 0
  {
  }

  lemma {:induction false} CabledParts(t: Tree)
    requires AllCabled(t)
    ensures Cabled(t) && BehindCabled(t.port3) && BehindCabled(t.port1) && BehindCabled(t.port2)
  {
  }

  lemma {:induction false} AllFitJoin(st: seq<Station>, lo: nat, mid: nat, hi: nat)
    requires Ranked(st) && lo <= mid <= hi && AllFit(st, lo, mid) && AllFit(st, mid, hi)
    ensures AllFit(st, lo, hi)
  {
    hide Fits;
  }

  lemma {:induction false} AllFitOne(st: seq<Station>, i: nat)
    requires Ranked(st) && 1 <= i < |st| && Fits(st, i)
    ensures AllFit(st, i, i + 1)
  {
    hide Fits;
  }

  /** A slave fits and so does every slave behind it. */
  lemma {:induction false} SlaveFits(t: Tree, st: seq<Station>, pos: nat, parent: nat, port: nat)
    requires Ranked(st) && 1 <= pos < |st| && Laid(t, st, pos, parent, port, st[pos].arrival) && AllCabled(t)
    requires Fits(st, pos)
    ensures AllFit(st, pos, pos + Size(t))
    decreases t, 1
  {
    hide Laid, LaidBehind, AllCabled, Fits, AllFit, Begins, RoundTrip;
    var at := st[pos].arrival;
    var pos1 := pos + 1 + SizeBehind(t.port3);
    var pos2 := pos1 + SizeBehind(t.port1);
    LaidParts(t, st, pos, parent, port, at);
    CabledParts(t);
    BranchesBegin(t, st[pos], parent, port, at);
    AllFitOne(st, pos);
    BranchFits(t.port3, st, pos + 1, pos, 3, 0);
    BranchFits(t.port1, st, pos1, pos, 1, RoundTrip(t.port3));
    BranchFits(t.port2, st, pos2, pos, 2, RoundTrip(t.port3) + RoundTrip(t.port1));
    AllFitJoin(st, pos, pos + 1, pos1);
    AllFitJoin(st, pos, pos1, pos2);
    AllFitJoin(st, pos, pos2, pos + Size(t));
  }

  lemma {:induction false} BranchesBegin(t: Tree, x: Station, parent: nat, port: nat, at: int)
    requires x == StationOf(t, parent, port, at) && Cabled(t)
    ensures t.port3.Open? ==> Begins(t.port3, x, 3, 0)
    ensures t.port1.Open? ==> Begins(t.port1, x, 1, RoundTrip(t.port3))
    ensures t.port2.Open? ==> Begins(t.port2, x, 2, RoundTrip(t.port3) + RoundTrip(t.port1))
    ensures x.links == 2 ==>
              (t.port1.Open? ==> t.port3.Closed?) && (t.port2.Open? ==> t.port3.Closed? && t.port1.Closed?)
  {
    hide Before, Round, IsBranch, Rank, Behind;
    PortsInTurn(t, x, parent, port, at);
    DurationIs(t);
  }

  lemma {:induction false} DurationIs(t: Tree)
    ensures Duration(t) == RoundTrip(t.port3) + RoundTrip(t.port1) + RoundTrip(t.port2)
    ensures RoundTrip(t.port3) % 2 == 0 && RoundTrip(t.port1) % 2 == 0 && RoundTrip(t.port2) % 2 == 0
    ensures (t.port3.Closed? ==> RoundTrip(t.port3) == 0) && (t.port1.Closed? ==> RoundTrip(t.port1) == 0)
  {
    RoundTripEven(t.port3);
    RoundTripEven(t.port1);
    RoundTripEven(t.port2);
  }

  lemma {:induction false} RootFits(t: Tree, st: seq<Station>, at: int)
    requires Segment(t, st, at) && AllCabled(t) && Ranked(st)
    ensures AllFit(st, 1, |st|)
  {
    hide Laid, AllCabled, Before, Round, Behind, EntryPort, IsBranch;
    LaidParts(t, st, 1, 0, 0, at);
    CabledParts(t);
    PortsInTurn(t, st[1], 0, 0, at);
    EntryAndLastPort(t, 0, 0, at);
    NoneBehindEndPoint(t);
    assert Fits(st, 1);
    SlaveFits(t, st, 1, 0, 0);
  }

  // ----- What the visits make of them -----

  /** The records describe the segment `st`. */
  predicate Wired(ss: seq<Dc>, st: seq<Station>)
  {
    |ss| == |st| && forall i :: 1 <= i < |ss| ==> Describes(ss[i], st[i])
  }

  predicate Describes(s: Dc, x: Station)
  {
    s.hasdc == x.dc && s.topology == x.links && s.active == x.active && s.parent == x.parent && s.regs == x.latch
  }

  /** The branch root that is held when slave `i` is visited. */
  function HoldBefore(st: seq<Station>, i: nat): (h: nat)
    requires Ranked(st) && 1 <= i <= |st|
    ensures h < i
  {
    if i == 1 || st[i - 1].dc || st[i - 1].links == 1 then 0 else Hold(st, i - 1)
  }

  /** The port of the slave with a clock above that slave `i` is put on. */
  function PortFound(st: seq<Station>, i: nat): nat
    requires Ranked(st) && 1 <= i < |st|
  {
    FirstLeft(Left(st, Up(st, i).0, i))
  }

  /** What the program takes for the way from the slave with a clock above to slave `i`. */
  function Way(st: seq<Station>, i: nat): int
    requires Ranked(st) && 1 <= i < |st|
  {
    var (d, c) := Up(st, i);
    var around, inner := Round(st[d], PortFound(st, i)), if st[i].links > 1 then Behind(st[i]) else 0;
    var before := if c - d > 1 then Before(st[d], PortFound(st, i)) else 0;
    Half(around - if inner > around then -inner else inner) + if before < 0 then -before else before
  }

  /** The delay slave `i` gets: the sum of the ways down to it, on top of what the first slave with a
      clock above it had. */
  function DelayFound(st: seq<Station>, given: seq<Dc>, i: nat): int
    requires Ranked(st) && |given| == |st| && 1 <= i < |st|
    decreases i
  {
    var d := Up(st, i).0;
    if d == 0 then given[i].pdelay else DelayFound(st, given, d) + Way(st, i)
  }

  /** The record of slave `j`, which has a clock, when the slaves below number `i` have been visited. */
  predicate VisitedOne(s: Dc, st: seq<Station>, given: seq<Dc>, j: nat, i: nat)
    requires Ranked(st) && |given| == |st| && 1 <= j < i <= |st|
  {
    && s.times == st[j].latch && s.entryport == st[j].entry && s.consumed == Left(st, j, i)
    && s.pdelay == DelayFound(st, given, j) && (Up(st, j).0 > 0 ==> s.parentport == PortFound(st, j))
  }

  predicate VisitedBelow(v: Survey, st: seq<Station>, given: seq<Dc>, i: nat)
    requires Ranked(st)
  {
    && |given| == |st| && 1 <= i <= |st| && Sound(v) && Wired(v.ss, st) && v.hold == HoldBefore(st, i)
    && (forall j :: 1 <= j < i && st[j].dc ==> VisitedOne(v.ss[j], st, given, j, i))
    && (forall j :: i <= j < |st| ==> v.ss[j].pdelay == given[j].pdelay)
  }

  lemma {:induction false} UpIsDcParent(ss: seq<Dc>, st: seq<Station>, i: nat)
    requires Ranked(st) && Wired(ss, st) && 1 <= i < |st|
    ensures Ordered(ss) && DcParent(ss, i) == Up(st, i)
    decreases i
  {
    assert forall j :: 1 <= j < |ss| ==> Describes(ss[j], st[j]);
    var parent := st[i].parent;
    if parent > 0 && !st[parent].dc {
      UpIsDcParent(ss, st, parent);
    }
  }

  /** A visit does not change what a record describes. */
  predicate SameSlave(a: Dc, b: Dc)
  {
    && a.hasdc == b.hasdc && a.topology == b.topology && a.active == b.active && a.parent == b.parent
       && a.regs == b.regs
  }

  lemma {:induction false} StillWired(ss: seq<Dc>, tt: seq<Dc>, st: seq<Station>)
    requires Ranked(st) && Wired(ss, st) && |tt| == |ss| && forall j :: 0 <= j < |ss| ==> SameSlave(ss[j], tt[j])
    ensures Wired(tt, st) && Ordered(tt)
  {
    assert forall j :: 1 <= j < |ss| ==> Describes(ss[j], st[j]) && SameSlave(ss[j], tt[j]);
  }

  /** The record of slave `j` when slave `i` has taken a port of it, or not. */
  function AfterTaker(s: Dc, st: seq<Station>, j: nat, i: nat): Dc
    requires Ranked(st) && 1 <= i < |st|
  {
    if j > 0 && Taker(st, i) == j then s.(consumed := TakeFirst(s.consumed)) else s
  }

  lemma {:induction false} OneStays(s: Dc, st: seq<Station>, given: seq<Dc>, j: nat, i: nat)
    requires Ranked(st) && |given| == |st| && 1 <= j < i < |st| && VisitedOne(s, st, given, j, i)
    ensures VisitedOne(AfterTaker(s, st, j, i), st, given, j, i + 1)
  {
    hide Taker, TakeFirst, PortFound, DelayFound;
  }

  /** The records after the visit of slave `i`, and that of slave `i` itself when it has a clock. */
  function AllAfter(ss: seq<Dc>, st: seq<Station>, i: nat): (r: seq<Dc>)
    requires Ranked(st) && |ss| == |st| && 1 <= i < |st|
    ensures |r| == |ss|
    ensures forall j :: 0 <= j < |ss| ==> r[j] == AfterTaker(ss[j], st, j, i)
  {
    var d := Taker(st, i);
    if d > 0 then ss[d := AfterTaker(ss[d], st, d, i)] else ss
  }

  function Measured(s: Dc, st: seq<Station>, given: seq<Dc>, i: nat): Dc
    requires Ranked(st) && |given| == |st| && 1 <= i < |st|
  {
    if Up(st, i).0 == 0 then Latched(s)
    else Latched(s).(parentport := PortFound(st, i), pdelay := DelayFound(st, given, i))
  }

  lemma {:induction false} WayComputed(s: Dc, p: Dc, st: seq<Station>, i: nat)
    requires Ranked(st) && 1 <= i < |st| && Up(st, i).0 > 0 && Describes(s, st[i]) && s.times == st[i].latch
    requires s.entryport == st[i].entry && Describes(p, st[Up(st, i).0])
    requires p.times == st[Up(st, i).0].latch && p.entryport == st[Up(st, i).0].entry
    ensures var (d, c) := Up(st, i); Delay(s, p, PortFound(st, i), c - d > 1) == p.pdelay + Way(st, i)
  {
    hide PrevPort, PortTime, PortFound, Half;
  }

  lemma {:induction false} ClockVisitIs(v: Survey, st: seq<Station>, given: seq<Dc>, i: nat)
    requires Ranked(st) && |given| == |st| && 1 <= i < |st| && Sound(v) && Wired(v.ss, st) && Fits(st, i) && st[i].dc
    requires var d := Up(st, i).0; d > 0 ==> VisitedOne(v.ss[d], st, given, d, i) && st[d].links > 1
    ensures Visit(v, i) == Survey(AllAfter(v.ss, st, i)[i := Measured(v.ss[i], st, given, i)], 0)
  {
    hide PrevPort, PortTime, Delay, EntryPort, Lowest, Without, FirstLeft, Left, Way, InLine, Reached;
    var (d, c) := Up(st, i);
    UpIsDcParent(v.ss, st, i);
    assert Describes(v.ss[i], st[i]);
    if d > 0 {
      assert Describes(v.ss[d], st[d]);
      var p := AfterTaker(v.ss[d], st, d, i);
      WayComputed(Latched(v.ss[i]).(parentport := PortFound(st, i)), p, st, i);
    }
  }

  lemma {:induction false} MeasuredFits(s: Dc, st: seq<Station>, given: seq<Dc>, i: nat)
    requires Ranked(st) && |given| == |st| && 1 <= i < |st| && Describes(s, st[i]) && Fits(st, i) && st[i].dc
    requires s.pdelay == given[i].pdelay
    ensures VisitedOne(Measured(s, st, given, i), st, given, i, i + 1) && SameSlave(s, Measured(s, st, given, i))
  {
    hide EntryPort, Without, Reached, InLine, PortFound, Way;
  }

  lemma {:induction false} ReachedLinks(st: seq<Station>, i: nat)
    requires Ranked(st) && 1 <= i < |st| && Fits(st, i)
    ensures Up(st, i).0 > 0 ==> st[Up(st, i).0].links > 1
  {
  }

  lemma {:induction false} ClockVisitKeeps(v: Survey, st: seq<Station>, given: seq<Dc>, i: nat)
    requires Ranked(st) && VisitedBelow(v, st, given, i) && 1 <= i < |st| && Fits(st, i) && st[i].dc
    ensures VisitedBelow(Visit(v, i), st, given, i + 1)
  {
    hide Visit, Latched, Measured, VisitedOne, Up, Taker, Left, Fits, Without, Describes, Ordered, TakeFirst;
    ReachedLinks(st, i);
    ClockVisitIs(v, st, given, i);
    assert Describes(v.ss[i], st[i]);
    MeasuredFits(v.ss[i], st, given, i);
    var w := Visit(v, i);
    StillWired(v.ss, w.ss, st);
    forall j | 1 <= j < i + 1 && st[j].dc ensures VisitedOne(w.ss[j], st, given, j, i + 1) {
      if j < i {
        OneStays(v.ss[j], st, given, j, i);
      }
    }
  }

  /** What a slave without a clock makes of the branch root held. */
  lemma {:induction false} HoldNext(st: seq<Station>, i: nat)
    requires Ranked(st) && 1 <= i < |st| && InLine(st, i)
    ensures var parent := st[i].parent;
            (if parent > 0 && st[parent].links > 2 then parent else HoldBefore(st, i)) == Hold(st, i)
  {
    hide Before, After, IsBranch;
  }

  lemma {:induction false} PlainVisitIs(v: Survey, st: seq<Station>, i: nat)
    requires Ranked(st) && 1 <= i < |st| && Sound(v) && Wired(v.ss, st) && v.hold == HoldBefore(st, i) && Fits(st, i)
    requires !st[i].dc
    ensures var s := v.ss[i].(times := Latch(0, 0, 0, 0), consumed := v.ss[i].active);
            Visit(v, i) == Survey(AllAfter(v.ss, st, i)[i := s], HoldBefore(st, i + 1))
  {
    hide PrevPort, PortTime, EntryPort, Left, Without, FirstLeft, Hold, HoldBefore, InLine, Reached;
    assert Describes(v.ss[i], st[i]);
    FitsInLine(st, i);
    HoldNext(st, i);
    HoldAfter(st, i);
    if st[i].parent > 0 {
      assert Describes(v.ss[st[i].parent], st[st[i].parent]);
    }
  }

  lemma {:induction false} HoldAfter(st: seq<Station>, i: nat)
    requires Ranked(st) && 1 <= i < |st| && !st[i].dc
    ensures HoldBefore(st, i + 1) == if st[i].links == 1 then 0 else Hold(st, i)
  {
  }

  lemma {:induction false} FitsInLine(st: seq<Station>, i: nat)
    requires Ranked(st) && 1 <= i < |st| && Fits(st, i)
    ensures InLine(st, i)
  {
  }

  lemma {:induction false} PlainVisitKeeps(v: Survey, st: seq<Station>, given: seq<Dc>, i: nat)
    requires Ranked(st) && VisitedBelow(v, st, given, i) && 1 <= i < |st| && Fits(st, i) && !st[i].dc
    ensures VisitedBelow(Visit(v, i), st, given, i + 1)
  {
    hide Visit, VisitedOne, Up, Taker, Left, Fits, Without, Describes, Ordered, HoldBefore, TakeFirst;
    PlainVisitIs(v, st, i);
    var w := Visit(v, i);
    StillWired(v.ss, w.ss, st);
    forall j | 1 <= j < i + 1 && st[j].dc ensures VisitedOne(w.ss[j], st, given, j, i + 1) {
      OneStays(v.ss[j], st, given, j, i);
    }
  }

  lemma {:induction false} VisitsKeep(v: Survey, st: seq<Station>, given: seq<Dc>, i: nat)
    requires Ranked(st) && VisitedBelow(v, st, given, i) && AllFit(st, 1, |st|)
    ensures VisitedBelow(VisitAll(v, i, |st|), st, given, |st|)
    decreases |st| - i
  {
    hide Visit, VisitedBelow, Fits;
    VisitedSound(v, st, given, i);
    if i < |st| {
      if st[i].dc {
        ClockVisitKeeps(v, st, given, i);
      } else {
        PlainVisitKeeps(v, st, given, i);
      }
      VisitsKeep(Visit(v, i), st, given, i + 1);
    }
  }

  lemma {:induction false} VisitedSound(v: Survey, st: seq<Station>, given: seq<Dc>, i: nat)
    requires Ranked(st) && VisitedBelow(v, st, given, i)
    ensures Sound(v) && |v.ss| == |st| && 1 <= i <= |st|
  {
  }

  lemma {:induction false} NoneVisited(ss: seq<Dc>, st: seq<Station>)
    requires Ranked(st) && Wired(ss, st) && |st| >= 1
    ensures VisitedBelow(Survey(ss, 0), st, ss, 1)
  {
    assert forall j :: 1 <= j < |ss| ==> Describes(ss[j], st[j]);
  }

  // ----- When the delays are right -----

  lemma {:induction false} WayIs(st: seq<Station>, i: nat)
    requires Ranked(st) && 1 <= i < |st| && Fits(st, i) && Up(st, i).0 > 0
    requires PortFound(st, i) == st[Up(st, i).1].port
    ensures 2 * (Way(st, i) - (st[i].arrival - st[Up(st, i).0].arrival)) == SideAfter(st, i) - SideBefore(st, i)
  {
    hide PortFound, EntryPort, Before, Round, Behind, IsBranch;
    var (d, c) := Up(st, i);
    var port, both := st[c].port, SideBefore(st, i) + SideAfter(st, i);
    var ahead := st[i].arrival - st[d].arrival - Before(st[d], port) - SideBefore(st, i);
    assert Behind(st[i]) == if st[i].links > 1 then Behind(st[i]) else 0;
    assert Round(st[d], port) - Behind(st[i]) == 2 * ahead + both;
    assert Half(2 * ahead + both) == ahead + both / 2;
  }

  /** The delay formula undoes the round trip, whatever offset each clock has, but for half the
      difference between the times the frame spends on side branches before and after. */
  lemma {:induction false} DelayFits(s: Dc, p: Dc, st: seq<Station>, i: nat)
    requires Ranked(st) && 1 <= i < |st| && Fits(st, i) && Up(st, i).0 > 0
    requires Describes(s, st[i]) && s.times == st[i].latch && s.entryport == st[i].entry
    requires Describes(p, st[Up(st, i).0]) && p.times == st[Up(st, i).0].latch && p.entryport == st[Up(st, i).0].entry
    requires PortFound(st, i) == st[Up(st, i).1].port
    ensures var (d, c) := Up(st, i);
            2 * (Delay(s, p, st[c].port, c - d > 1) - p.pdelay - (st[i].arrival - st[d].arrival))
            == SideAfter(st, i) - SideBefore(st, i)
  {
    hide Delay, Way, Fits;
    WayComputed(s, p, st, i);
    WayIs(st, i);
  }

  /** A slave is put on the port its branch hangs on exactly when it is its turn. */
  lemma {:induction false} PortInTurn(st: seq<Station>, i: nat)
    requires Ranked(st) && 1 <= i < |st| && Fits(st, i) && Up(st, i).0 > 0
    ensures PortFound(st, i) == st[Up(st, i).1].port <==> InTurn(st, i)
  {
    hide Left, FirstLeft, Without, Before, Round, Behind, IsBranch, EntryPort, Rank, InLine;
    var (d, c) := Up(st, i);
    LeftDrops(st, d, i);
    FoundInTurn(st[d], st[c].port, Taken(st, d, i));
  }

  /** Slave `i` is put on the right port and, seen from the slave with a clock above it, its delay is
      the time the frame took. */
  predicate Right(w: seq<Dc>, st: seq<Station>, i: nat)
    requires Ranked(st) && |w| == |st| && 1 <= i < |st|
  {
    var (d, c) := Up(st, i);
    d > 0 ==> w[i].parentport == st[c].port && w[i].pdelay - w[d].pdelay == st[i].arrival - st[d].arrival
  }

  /** What the survey `w` finds out about slave `i`, which has a clock. */
  predicate Surveyed(w: seq<Dc>, ss: seq<Dc>, st: seq<Station>, i: nat)
    requires Ranked(st) && |w| == |ss| == |st| && 1 <= i < |st|
  {
    var (d, c) := Up(st, i);
    && w[i].entryport == st[i].entry && w[i].consumed == Left(st, i, |st|)
    && (d == 0 ==> w[i].pdelay == ss[i].pdelay)
    && (d > 0 ==> w[i].parentport == PortFound(st, i) && (w[i].parentport == st[c].port <==> InTurn(st, i)))
    && (d > 0 && InTurn(st, i) ==>
          2 * ((w[i].pdelay - w[d].pdelay) - (st[i].arrival - st[d].arrival)) == SideAfter(st, i) - SideBefore(st, i))
  }

  lemma {:induction false} OneSurveyed(v: Survey, ss: seq<Dc>, st: seq<Station>, i: nat)
    requires Ranked(st) && 1 <= i < |st| && VisitedBelow(v, st, ss, |st|) && Fits(st, i) && st[i].dc
    ensures |v.ss| == |ss| && Surveyed(v.ss, ss, st, i)
  {
    hide PortFound, Way, Left, Fits, InTurn, SideBefore, SideAfter;
    var d := Up(st, i).0;
    assert VisitedOne(v.ss[i], st, ss, i, |st|);
    if d > 0 {
      assert VisitedOne(v.ss[d], st, ss, d, |st|);
      PortInTurn(st, i);
      if InTurn(st, i) {
        WayIs(st, i);
      }
    }
  }

  lemma {:induction false} SegmentRanked(t: Tree, st: seq<Station>, at: int)
    requires Segment(t, st, at)
    ensures Ranked(st) && |st| > 1
  {
    hide Laid;
    BranchLaid(t, st, at);
    ParentsInBranch(Open(0, t), st, 1, 0, 0, at);
  }

  lemma {:induction false} BranchLaid(t: Tree, st: seq<Station>, at: int)
    requires Segment(t, st, at)
    ensures LaidBehind(Open(0, t), st, 1, 0, 0, at) && SizeBehind(Open(0, t)) == Size(t)
  {
  }

  lemma {:induction false} WiredSound(ss: seq<Dc>, st: seq<Station>)
    requires Ranked(st) && Wired(ss, st)
    ensures Sound(Survey(ss, 0)) && |ss| == |st|
  {
    assert forall j :: 1 <= j < |ss| ==> Describes(ss[j], st[j]);
  }

  /** The frame as the reference, for every tree: when all slaves have been visited, every slave with
      a clock has found its entry port and has left the ports that no slave took.  It is put on the
      port its branch hangs on exactly when it is its turn; twice the error of its delay is then the
      time the frame spends on side branches after it, less that before it.  So port and delay
      are right if and only if it is its turn and these times agree. */
  lemma {:induction false} DelaysAreArrivals(t: Tree, st: seq<Station>, at: int, ss: seq<Dc>)
    requires Segment(t, st, at) && AllCabled(t) && Wired(ss, st)
    ensures Ranked(st) && Sound(Survey(ss, 0)) && |ss| == |st|
    ensures var w := VisitAll(Survey(ss, 0), 1, |ss|).ss;
            && (forall i :: 1 <= i < |st| && st[i].dc ==> Surveyed(w, ss, st, i))
            && (forall i :: 1 <= i < |st| && st[i].dc ==> (Right(w, st, i) <==> InTurn(st, i) && Balanced(st, i)))
  {
    hide Segment, AllCabled, VisitAll, Surveyed, Wired, VisitedBelow, InTurn, Fits;
    SegmentRanked(t, st, at);
    WiredSound(ss, st);
    RootFits(t, st, at);
    NoneVisited(ss, st);
    VisitsKeep(Survey(ss, 0), st, ss, 1);
    var v := VisitAll(Survey(ss, 0), 1, |st|);
    forall i | 1 <= i < |st| && st[i].dc
      ensures Surveyed(v.ss, ss, st, i) && (Right(v.ss, st, i) <==> InTurn(st, i) && Balanced(st, i))
    {
      OneSurveyed(v, ss, st, i);
      RightWhenBalanced(v.ss, ss, st, i);
    }
  }

  lemma {:induction false} RightWhenBalanced(w: seq<Dc>, ss: seq<Dc>, st: seq<Station>, i: nat)
    requires Ranked(st) && |w| == |ss| == |st| && 1 <= i < |st| && Surveyed(w, ss, st, i)
    ensures Right(w, st, i) <==> InTurn(st, i) && Balanced(st, i)
  {
    hide InTurn, SideBefore, SideAfter, Left;
    if Up(st, i).0 == 0 {
      NoneAbove(st, i);
    }
  }

  lemma {:induction false} NoneAbove(st: seq<Station>, i: nat)
    requires Ranked(st) && 1 <= i < |st| && Up(st, i).0 == 0
    ensures InTurn(st, i)
  {
  }

  /** No slave with a clock comes after a slave without one that branches, below the same next slave
      with a clock: neither behind it nor on a later branch. */
  predicate ForksLast(st: seq<Station>)
    requires Ranked(st)
  {
    forall j, k :: 1 <= j < k < |st| && !st[j].dc && st[j].links > 2 && st[k].dc ==> Up(st, k).0 != Up(st, j).0
  }

  /** A slave with a clock is still to come right below slave `d`. */
  predicate Live(st: seq<Station>, d: nat, i: nat)
    requires Ranked(st) && 1 <= i
  {
    exists k :: i <= k < |st| && st[k].dc && Up(st, k).0 == d
  }

  lemma {:induction false} NoClocks(st: seq<Station>, pos: nat, hi: nat)
    requires Ranked(st) && 1 <= pos < hi <= |st| && !st[pos].dc && !Live(st, Up(st, pos).0, pos + 1)
    requires forall j :: pos < j < hi ==> pos <= st[j].parent
    ensures forall j :: pos <= j < hi ==> !st[j].dc && Up(st, j).0 == Up(st, pos).0
    decreases hi
  {
    if pos + 1 < hi {
      NoClocks(st, pos, hi - 1);
    }
  }

  lemma {:induction false} HoldIs(st: seq<Station>, i: nat)
    requires Ranked(st) && 1 <= i < |st| && ForksLast(st) && Live(st, Up(st, i).0, i + 1)
    ensures var d := Up(st, i).0; Hold(st, i) == if d > 0 && st[d].links > 2 then d else 0
    decreases i
  {
    var parent := st[i].parent;
    if parent > 0 && !st[parent].dc {
      HoldIs(st, parent);
    }
  }

  /** What is behind a slave with a clock takes no port further up. */
  lemma {:induction false} Inside(st: seq<Station>, pos: nat, j: nat)
    requires Ranked(st) && 1 <= pos < j < |st| && st[pos].dc && forall m :: pos < m <= j ==> pos <= st[m].parent
    ensures Up(st, j).0 >= pos && (Hold(st, j) == 0 || Hold(st, j) >= pos)
    decreases j
  {
    if st[j].parent > pos && !st[st[j].parent].dc {
      Inside(st, pos, st[j].parent);
    }
  }

  lemma {:induction false} TakenSkips(st: seq<Station>, d: nat, lo: nat, hi: nat)
    requires Ranked(st) && d < lo <= hi <= |st| && forall j :: lo <= j < hi ==> Taker(st, j) != d
    ensures Taken(st, d, hi) == Taken(st, d, lo)
    decreases hi
  {
    hide Taker;
    if lo < hi {
      TakenSkips(st, d, lo, hi - 1);
    }
  }

  /** It is the turn of slave `pos`, if one with a clock is still to come. */
  predicate Due(st: seq<Station>, pos: nat)
    requires Ranked(st) && 1 <= pos < |st|
  {
    Live(st, Up(st, pos).0, pos) ==> InTurn(st, pos)
  }

  predicate AllInTurn(st: seq<Station>, lo: nat, hi: nat)
    requires Ranked(st) && 1 <= lo && hi <= |st|
  {
    forall j :: lo <= j < hi && st[j].dc ==> InTurn(st, j)
  }

  /** The slaves of a branch take one port of slave `d`, if one with a clock comes after them there. */
  predicate OneTaken(st: seq<Station>, d: nat, lo: nat, hi: nat, n: nat)
    requires Ranked(st) && d < lo <= hi <= |st|
  {
    d > 0 && st[d].links > 2 && Live(st, d, hi) ==> Taken(st, d, hi) == Taken(st, d, lo) + n
  }

  /** The parents of all slaves of a laid-out tree but the first are in it. */
  lemma {:induction false} ParentsIn(t: Tree, st: seq<Station>, pos: nat, parent: nat, port: nat, at: int)
    requires Laid(t, st, pos, parent, port, at)
    ensures pos + Size(t) <= |st| && forall j :: pos < j < pos + Size(t) ==> pos <= st[j].parent < j
  {
    var l := Open(0, t);
    assert LaidBehind(l, st, pos, parent, port, at) && SizeBehind(l) == Size(t);
    ParentsInBranch(l, st, pos, parent, port, at);
  }

  /** A slave with a clock takes one port of the next one above, and those behind it take none. */
  lemma {:induction false} ClockTakes(st: seq<Station>, pos: nat, hi: nat)
    requires Ranked(st) && 1 <= pos < hi <= |st| && st[pos].dc && forall j :: pos < j < hi ==> pos <= st[j].parent
    requires Due(st, pos) && AllInTurn(st, pos + 1, hi)
    ensures AllInTurn(st, pos, hi) && OneTaken(st, Up(st, pos).0, pos, hi, 1)
  {
    hide Hold, Rank;
    var d := Up(st, pos).0;
    forall j | pos < j < hi ensures Taker(st, j) != d || d == 0 {
      Inside(st, pos, j);
    }
    if d > 0 {
      TakenSkips(st, d, pos + 1, hi);
    }
    assert Live(st, d, pos);
  }

  /** Where no slave with a clock is to come, nothing is to be shown. */
  lemma {:induction false} DeadEnd(st: seq<Station>, pos: nat, hi: nat)
    requires Ranked(st) && 1 <= pos < hi <= |st| && !st[pos].dc && forall j :: pos < j < hi ==> pos <= st[j].parent
    requires !Live(st, Up(st, pos).0, pos + 1)
    ensures AllInTurn(st, pos, hi) && OneTaken(st, Up(st, pos).0, pos, hi, 1)
  {
    hide InTurn, Taken;
    NoClocks(st, pos, hi);
  }

  /** An end point without a clock takes one port of the branch root held. */
  lemma {:induction false} EndTakes(st: seq<Station>, pos: nat)
    requires Ranked(st) && 1 <= pos < |st| && !st[pos].dc && st[pos].links == 1 && ForksLast(st)
    requires Live(st, Up(st, pos).0, pos + 1)
    ensures AllInTurn(st, pos, pos + 1) && OneTaken(st, Up(st, pos).0, pos, pos + 1, 1)
  {
    hide InTurn, Live, ForksLast, Hold;
    HoldIs(st, pos);
  }

  lemma {:induction false} LineInTurn(t: Tree, st: seq<Station>, pos: nat, parent: nat, port: nat)
    requires Ranked(st) && 1 <= pos < |st| && Laid(t, st, pos, parent, port, st[pos].arrival) && AllCabled(t)
    requires ForksLast(st) && Due(st, pos)
    ensures pos + Size(t) <= |st| && AllInTurn(st, pos, pos + Size(t))
    ensures OneTaken(st, Up(st, pos).0, pos, pos + Size(t), 1)
    decreases t, 1
  {
    hide Laid, AllCabled, Cabled, Duration, Size, ForksLast, Due, AllInTurn, OneTaken, Live, Up;
    LaidParts(t, st, pos, parent, port, st[pos].arrival);
    ParentsIn(t, st, pos, parent, port, st[pos].arrival);
    CabledParts(t);
    if t.dc {
      SlaveInTurn(t, st, pos, parent, port);
      ClockTakes(st, pos, pos + Size(t));
    } else if !Live(st, Up(st, pos).0, pos + 1) {
      DeadEnd(st, pos, pos + Size(t));
    } else {
      ForkEnds(st, pos);
      if t.port3.Open? {
        LineGoesOn(t, st, pos, parent, port, t.port3, 3);
      } else if t.port1.Open? {
        LineGoesOn(t, st, pos, parent, port, t.port1, 1);
      } else if t.port2.Open? {
        LineGoesOn(t, st, pos, parent, port, t.port2, 2);
      } else {
        EndTakes(st, pos);
      }
    }
  }

  lemma {:induction false} ForkEnds(st: seq<Station>, pos: nat)
    requires Ranked(st) && 1 <= pos < |st| && ForksLast(st) && !st[pos].dc && Live(st, Up(st, pos).0, pos + 1)
    ensures st[pos].links <= 2
  {
  }

  /** A slave without a clock, and the one slave behind it. */
  lemma {:induction false} LineGoesOn(t: Tree, st: seq<Station>, pos: nat, parent: nat, port: nat, l: Link, out: nat)
    requires Ranked(st) && 1 <= pos < |st| && st[pos] == StationOf(t, parent, port, st[pos].arrival)
    requires !t.dc && Children(t) == 1 && l.Open? && l < t && BehindCabled(l)
    requires (l == t.port3 || l == t.port1 || l == t.port2) && LaidBehind(l, st, pos + 1, pos, out, st[pos].arrival)
    requires ForksLast(st) && Due(st, pos)
    ensures pos + Size(t) <= |st| && AllInTurn(st, pos, pos + Size(t))
    ensures OneTaken(st, Up(st, pos).0, pos, pos + Size(t), 1)
    decreases t, 0
  {
    hide Laid, AllCabled, Duration, RoundTrip, ForksLast, Taken, Up, InTurn, Live, Due;
    LaidParts(l.sub, st, pos + 1, pos, out, st[pos].arrival + l.delay);
    NextDue(st, pos);
    LineInTurn(l.sub, st, pos + 1, pos, out);
  }

  lemma {:induction false} NextDue(st: seq<Station>, pos: nat)
    requires Ranked(st) && 1 <= pos && pos + 1 < |st| && !st[pos].dc && st[pos].links == 2 && st[pos + 1].parent == pos
    ensures Up(st, pos + 1) == Up(st, pos)
    ensures Up(st, pos).0 > 0 ==> Taken(st, Up(st, pos).0, pos + 1) == Taken(st, Up(st, pos).0, pos)
    ensures Due(st, pos) ==> Due(st, pos + 1)
  {
    hide Rank, Hold;
  }

  /** The slaves of a branch of slave `d`, which has a clock. */
  lemma {:induction false} BranchInTurn(l: Link, st: seq<Station>, pos: nat, d: nat, out: nat, at: int)
    requires Ranked(st) && 1 <= d < pos <= |st| && st[d].dc && LaidBehind(l, st, pos, d, out, at) && BehindCabled(l)
    requires ForksLast(st)
    requires l.Open? && Live(st, d, pos) ==> Taken(st, d, pos) == Rank(st[d], out)
    ensures pos + SizeBehind(l) <= |st| && AllInTurn(st, pos, pos + SizeBehind(l))
    ensures OneTaken(st, d, pos, pos + SizeBehind(l), Count(l))
    decreases l, 2
  {
    hide Laid, AllCabled, Duration, RoundTrip, ForksLast, Rank;
    if l.Open? {
      LaidParts(l.sub, st, pos, d, out, at + l.delay);
      LineInTurn(l.sub, st, pos, d, out);
    }
  }

  /** The slaves behind slave `pos`, which has a clock. */
  lemma {:induction false} SlaveInTurn(t: Tree, st: seq<Station>, pos: nat, parent: nat, port: nat)
    requires Ranked(st) && 1 <= pos < |st| && Laid(t, st, pos, parent, port, st[pos].arrival) && AllCabled(t) && t.dc
    requires ForksLast(st)
    ensures pos + Size(t) <= |st| && AllInTurn(st, pos + 1, pos + Size(t))
    decreases t, 0
  {
    hide Laid, LaidBehind, AllCabled, ForksLast, Duration, RoundTrip, Size, SizeBehind, IsBranch, Rank, Live, Taken,
      AllInTurn, Before, Round, Behind;
    var at := st[pos].arrival;
    var pos1 := pos + 1 + SizeBehind(t.port3);
    var pos2 := pos1 + SizeBehind(t.port1);
    LaidParts(t, st, pos, parent, port, at);
    CabledParts(t);
    PortsInTurn(t, st[pos], parent, port, at);
    NothingBehind(t.port3);
    NothingBehind(t.port1);
    TakenNone(st, pos);
    BranchInTurn(t.port3, st, pos + 1, pos, 3, at);
    if Live(st, pos, pos2) {
      LiveSooner(st, pos, pos1, pos2);
    }
    BranchInTurn(t.port1, st, pos1, pos, 1, at + RoundTrip(t.port3));
    BranchInTurn(t.port2, st, pos2, pos, 2, at + (RoundTrip(t.port3) + RoundTrip(t.port1)));
    InTurnJoin(st, pos + 1, pos1, pos2);
    InTurnJoin(st, pos + 1, pos2, pos + Size(t));
  }

  lemma {:induction false} NothingBehind(l: Link)
    ensures l.Closed? ==> SizeBehind(l) == 0
  {
  }

  lemma {:induction false} TakenNone(st: seq<Station>, d: nat)
    requires Ranked(st) && d < |st|
    ensures Taken(st, d, d + 1) == 0
  {
  }

  lemma {:induction false} LiveSooner(st: seq<Station>, d: nat, i: nat, j: nat)
    requires Ranked(st) && 1 <= i <= j && Live(st, d, j)
    ensures Live(st, d, i)
  {
  }

  lemma {:induction false} InTurnJoin(st: seq<Station>, lo: nat, mid: nat, hi: nat)
    requires Ranked(st) && 1 <= lo <= mid <= hi <= |st| && AllInTurn(st, lo, mid) && AllInTurn(st, mid, hi)
    ensures AllInTurn(st, lo, hi)
  {
    hide InTurn;
  }

  /** The frame spends no time on side branches on its way to slave `k`. */
  lemma {:induction false} NoSides(st: seq<Station>, i: nat, k: nat)
    requires Ranked(st) && 1 <= i <= k < |st| && ForksLast(st) && AllFit(st, 1, |st|)
    requires st[k].dc && Up(st, k).0 == Up(st, i).0
    ensures SideBefore(st, i) == 0 && SideAfter(st, i) == 0
    decreases i
  {
    hide Before, After, IsBranch, EntryPort, Reached;
    var parent := st[i].parent;
    if parent > 0 && !st[parent].dc {
      NoSides(st, parent, k);
      assert Fits(st, i);
    }
  }

  /** No slave with a clock comes before the first one. */
  lemma {:induction false} NoneBefore(st: seq<Station>, i: nat, k: nat)
    requires Ranked(st) && 1 <= i <= k < |st| && ForksLast(st) && AllFit(st, 1, |st|)
    requires st[k].dc && Up(st, k).0 == 0 == Up(st, i).0
    ensures forall j :: 1 <= j < i ==> !st[j].dc
    decreases i
  {
    hide Before, After, IsBranch, EntryPort, Reached;
    assert Fits(st, i);
    if st[i].parent > 0 {
      NoneBefore(st, st[i].parent, k);
    }
  }

  lemma {:induction false} OneFirst(st: seq<Station>, i: nat, j: nat)
    requires Ranked(st) && 1 <= i < |st| && 1 <= j < |st| && ForksLast(st) && AllFit(st, 1, |st|)
    requires st[i].dc && st[j].dc && Up(st, i).0 == 0 == Up(st, j).0
    ensures i == j
  {
    hide Fits, ForksLast;
    NoneBefore(st, i, i);
    NoneBefore(st, j, j);
  }

  /** The first slave with a clock on the way to slave `i`. */
  function First(st: seq<Station>, i: nat): (f: nat)
    requires Ranked(st) && 1 <= i < |st| && st[i].dc
    ensures 1 <= f <= i && st[f].dc && Up(st, f).0 == 0
    decreases i
  {
    var d := Up(st, i).0;
    if d == 0 then i else First(st, d)
  }

  lemma {:induction false} RightFromFirst(w: seq<Dc>, st: seq<Station>, i: nat)
    requires Ranked(st) && |w| == |st| && 1 <= i < |st| && st[i].dc
    requires forall j :: 1 <= j < |st| && st[j].dc ==> Right(w, st, j)
    ensures w[i].pdelay - w[First(st, i)].pdelay == st[i].arrival - st[First(st, i)].arrival
    decreases i
  {
    var d := Up(st, i).0;
    assert Right(w, st, i);
    if d > 0 {
      RightFromFirst(w, st, d);
    }
  }

  /** So for every tree in which slaves without a clock do not branch, or only where no clock follows:
      each slave is put on the right port, and the delays of any two slaves with a clock differ by
      exactly the time the frame took between them. */
  lemma {:induction false} ForksLastAreRight(t: Tree, st: seq<Station>, at: int, ss: seq<Dc>)
    requires Segment(t, st, at) && AllCabled(t) && Wired(ss, st) && Ranked(st) && ForksLast(st)
    ensures Sound(Survey(ss, 0)) && |ss| == |st|
    ensures var w := VisitAll(Survey(ss, 0), 1, |ss|).ss;
            && (forall i :: 1 <= i < |st| && st[i].dc ==> Right(w, st, i))
            && (forall i, j :: 1 <= i < |st| && 1 <= j < |st| && st[i].dc && st[j].dc ==>
                  w[i].pdelay - w[j].pdelay == st[i].arrival - st[j].arrival)
  {
    hide *;
    DelaysAreArrivals(t, st, at, ss);
    RootFits(t, st, at);
    RootDue(t, st, at);
    LineInTurn(t, st, 1, 0, 0);
    var w := VisitAll(Survey(ss, 0), 1, |ss|).ss;
    forall i | 1 <= i < |st| && st[i].dc ensures Right(w, st, i) {
      OneRight(w, st, i);
    }
    forall i, j | 1 <= i < |st| && 1 <= j < |st| && st[i].dc && st[j].dc
      ensures w[i].pdelay - w[j].pdelay == st[i].arrival - st[j].arrival
    {
      RightFromFirst(w, st, i);
      RightFromFirst(w, st, j);
      OneFirst(st, First(st, i), First(st, j));
    }
  }

  lemma {:induction false} OneRight(w: seq<Dc>, st: seq<Station>, i: nat)
    requires Ranked(st) && |w| == |st| && 1 <= i < |st| && st[i].dc && ForksLast(st) && AllFit(st, 1, |st|)
    requires AllInTurn(st, 1, |st|) && (Right(w, st, i) <==> InTurn(st, i) && Balanced(st, i))
    ensures Right(w, st, i)
  {
    hide InTurn, Right, Fits, ForksLast;
    NoSides(st, i, i);
  }

  lemma {:induction false} RootDue(t: Tree, st: seq<Station>, at: int)
    requires Segment(t, st, at) && Ranked(st)
    ensures 1 < |st| == 1 + Size(t) && Laid(t, st, 1, 0, 0, st[1].arrival) && Due(st, 1)
  {
  }

  function EndPoint(clock: int): Tree
  {
    Slave(true, clock, 0, 0, Closed(0), Closed(0), Closed(0))
  }

  /** A slave without a clock that has two branches. */
  function Forked(a: nat, b: nat, c: nat): Tree
  {
    Slave(true, 0, 0, 0, Open(a, Slave(false, 0, 0, 0, Open(b, EndPoint(0)), Open(c, EndPoint(0)), Closed(0))),
          Closed(0), Closed(0))
  }

  /** A branch, laid out behind slave `parent`. */
  lemma {:induction false} LinkLaid(l: Link, st: seq<Station>, pos: nat, parent: nat, port: nat, at: int)
    requires l.Open? && LaidBehind(l, st, pos, parent, port, at)
    ensures Laid(l.sub, st, pos, parent, port, at + l.delay)
    ensures pos < |st| && st[pos] == StationOf(l.sub, parent, port, at + l.delay)
  {
    LaidParts(l.sub, st, pos, parent, port, at + l.delay);
  }

  lemma {:induction false} Parts(t: Tree)
    ensures Size(t) == 1 + SizeBehind(t.port3) + SizeBehind(t.port1) + SizeBehind(t.port2)
    ensures Duration(t) == RoundTrip(t.port3) + RoundTrip(t.port1) + RoundTrip(t.port2)
  {
  }

  lemma {:induction false} LinkIs(l: Link)
    ensures SizeBehind(l) == if l.Open? then Size(l.sub) else 0
    ensures RoundTrip(l) == if l.Open? then 2 * l.delay + Duration(l.sub) else 0
  {
  }

  lemma {:induction false} EndPointIs(delay: nat)
    ensures Size(EndPoint(0)) == 1 && RoundTrip(Open(delay, EndPoint(0))) == 2 * delay
  {
    hide Size, SizeBehind, Duration, RoundTrip;
    Parts(EndPoint(0));
    LinkIs(Closed(0));
    LinkIs(Open(delay, EndPoint(0)));
  }

  lemma {:induction false} ForkIs(a: nat, b: nat, c: nat)
    ensures var t := Forked(a, b, c);
            Size(t) == 4 && RoundTrip(t.port3) == 2 * a + 2 * b + 2 * c && Children(t) == 1
  {
    hide Size, SizeBehind, Duration, RoundTrip;
    var t := Forked(a, b, c);
    EndPointIs(b);
    EndPointIs(c);
    LinkIs(Closed(0));
    LinkIs(t.port3.sub.port3);
    LinkIs(t.port3.sub.port1);
    Parts(t.port3.sub);
    LinkIs(t.port3);
    Parts(t);
  }

  lemma {:induction false} EndStation(parent: nat, port: nat, at: int)
    ensures StationOf(EndPoint(0), parent, port, at)
            == Station(true, 1, 0, Ports(true, false, false, false), Latch(at, 0, 0, 0), parent, port, at)
  {
  }

  lemma {:induction false} ForkStations(a: nat, b: nat, c: nat, at: int)
    ensures var t := Forked(a, b, c);
            && StationOf(t, 0, 0, at) == Station(true, 2, 0, Ports(true, false, false, true),
                                                 Latch(at, 0, 0, at + RoundTrip(t.port3)), 0, 0, at)
            && StationOf(t.port3.sub, 1, 3, at + a).links == 3
  {
    hide RoundTrip;
  }

  lemma {:induction false} ForkLaid(a: nat, b: nat, c: nat, st: seq<Station>, at: int)
    requires Segment(Forked(a, b, c), st, at)
    ensures |st| == 5
    ensures st[1] == Station(true, 2, 0, Ports(true, false, false, true),
                             Latch(at, 0, 0, at + 2 * a + 2 * b + 2 * c), 0, 0, at)
    ensures st[2] == StationOf(Forked(a, b, c).port3.sub, 1, 3, at + a) && st[2].links == 3
    ensures st[3] == Station(true, 1, 0, Ports(true, false, false, false), Latch(at + a + b, 0, 0, 0), 2, 3, at + a + b)
    ensures st[4] == Station(true, 1, 0, Ports(true, false, false, false), Latch(at + a + 2 * b + c, 0, 0, 0), 2, 1,
                             at + a + 2 * b + c)
  {
    hide Laid, LaidBehind, Size, Duration, RoundTrip, StationOf;
    var t := Forked(a, b, c);
    var f := t.port3.sub;
    ForkIs(a, b, c);
    EndPointIs(b);
    EndStation(2, 3, at + a + b);
    EndStation(2, 1, at + a + 2 * b + c);
    ForkStations(a, b, c, at);
    BranchLaid(t, st, at);
    LinkLaid(Open(0, t), st, 1, 0, 0, at);
    LaidParts(t, st, 1, 0, 0, at);
    LinkLaid(t.port3, st, 2, 1, 3, at);
    LaidParts(f, st, 2, 1, 3, at + a);
    LinkLaid(f.port3, st, 3, 2, 3, at + a);
    LinkLaid(f.port1, st, 4, 2, 1, at + a + 2 * b);
  }

  /** The condition fails at such a fork: the first slave behind it has the way to the second, and back,
      after it and nothing before it, and it is not the second one's turn. */
  lemma {:induction false} ForkFails(a: nat, b: nat, c: nat, st: seq<Station>, at: int)
    requires Segment(Forked(a, b, c), st, at) && Ranked(st)
    ensures |st| == 5 && st[3].dc && st[4].dc && Up(st, 3).0 == 1 && Up(st, 4).0 == 1
    ensures InTurn(st, 3) && SideBefore(st, 3) == 0 && SideAfter(st, 3) == 2 * c
    ensures !InTurn(st, 4)
  {
    hide Laid, Size, Before, Round, Behind;
    ForkLaid(a, b, c, st, at);
    var f := Forked(a, b, c).port3.sub;
    PortsInTurn(f, st[2], 1, 3, at + a);
    DurationIs(f);
    EndPointIs(c);
    LinkIs(f.port1);
    assert Up(st, 2) == (1, 2) && Up(st, 3) == (1, 2) && Up(st, 4) == (1, 2);
    assert Taken(st, 1, 2) == 0 && Taken(st, 1, 3) == 0 && Taken(st, 1, 4) == 1;
  }

  /** So the way to the first slave behind the fork comes out longer by the way to the second, and the
      second is taken to hang on the port that the slave with a clock above was entered by. */
  lemma {:induction false} ForkMisleads(a: nat, b: nat, c: nat, st: seq<Station>, at: int, ss: seq<Dc>)
    requires Segment(Forked(a, b, c), st, at) && Wired(ss, st) && Ordered(ss)
    ensures |ss| == 5
    ensures var w := VisitAll(Survey(ss, 0), 1, |ss|).ss;
            && w[3].pdelay - w[1].pdelay == st[3].arrival - st[1].arrival + c
            && w[4].parentport == st[1].entry
  {
    hide Segment, Forked, AllCabled, VisitAll, Wired, PortFound, InTurn, SideBefore, SideAfter, Left;
    var t := Forked(a, b, c);
    SegmentRanked(t, st, at);
    ForkCabled(a, b, c);
    ForkFails(a, b, c, st, at);
    DelaysAreArrivals(t, st, at, ss);
    var w := VisitAll(Survey(ss, 0), 1, |ss|).ss;
    assert Surveyed(w, ss, st, 3) && Surveyed(w, ss, st, 4);
    ForkPort(a, b, c, st, at);
  }

  lemma {:induction false} ForkCabled(a: nat, b: nat, c: nat)
    ensures AllCabled(Forked(a, b, c))
  {
    hide RoundTrip;
    var f := Forked(a, b, c).port3.sub;
    assert AllCabled(EndPoint(0));
    assert BehindCabled(f.port3) && BehindCabled(f.port1);
    assert AllCabled(f);
  }

  lemma {:induction false} ForkPort(a: nat, b: nat, c: nat, st: seq<Station>, at: int)
    requires Segment(Forked(a, b, c), st, at) && Ranked(st)
    ensures |st| == 5 && PortFound(st, 4) == st[1].entry
  {
    hide Segment;
    ForkLaid(a, b, c, st, at);
    assert Up(st, 2) == (1, 2) && Up(st, 3) == (1, 2) && Up(st, 4) == (1, 2);
    assert Left(st, 1, 2) == Ports(false, false, false, true) && Left(st, 1, 3) == Left(st, 1, 2);
    assert Left(st, 1, 4) == Ports(false, false, false, false);
  }

  /** A slave with a clock, another one on its first branch, and on its last a slave without a clock
      that has two branches. */
  function Beside(a: nat, b: nat, c: nat, d: nat): Tree
  {
    var end := EndPoint(0).(dc := false);
    Slave(true, 0, 0, 0, Open(a, EndPoint(0)),
          Open(b, Slave(false, 0, 0, 0, Open(c, end), Open(d, end), Closed(0))), Closed(0))
  }

  lemma {:induction false} BesideLaid(a: nat, b: nat, c: nat, d: nat, st: seq<Station>, at: int)
    requires Segment(Beside(a, b, c, d), st, at)
    ensures |st| == 6 && st[1].dc && st[2].dc && !st[3].dc && !st[4].dc && !st[5].dc && st[3].links == 3
    ensures st[1].arrival == at && st[2].arrival == at + a && st[2].parent == 1 && st[2].port == 3
  {
    hide Laid, LaidBehind, Size, Duration, RoundTrip;
    var t := Beside(a, b, c, d);
    var f := t.port1.sub;
    EndPointIs(a);
    Parts(t);
    Parts(f);
    Parts(f.port3.sub);
    BranchLaid(t, st, at);
    LinkLaid(Open(0, t), st, 1, 0, 0, at);
    LaidParts(t, st, 1, 0, 0, at);
    LinkLaid(t.port3, st, 2, 1, 3, at);
    LinkLaid(t.port1, st, 3, 1, 1, at + RoundTrip(t.port3));
    LaidParts(f, st, 3, 1, 1, st[3].arrival);
    LinkLaid(f.port3, st, 4, 3, 3, st[3].arrival);
    LinkLaid(f.port1, st, 5, 3, 1, st[3].arrival + RoundTrip(f.port3));
  }

  lemma {:induction false} BesideCabled(a: nat, b: nat, c: nat, d: nat)
    ensures AllCabled(Beside(a, b, c, d))
  {
    hide RoundTrip;
    var t := Beside(a, b, c, d);
    assert BehindCabled(t.port1.sub.port3) && BehindCabled(t.port1.sub.port1);
    assert BehindCabled(t.port3) && BehindCabled(t.port1);
  }

  /** A fork that no slave with a clock follows does no harm. */
  lemma {:induction false} ForkBeside(a: nat, b: nat, c: nat, d: nat, st: seq<Station>, at: int, ss: seq<Dc>)
    requires Segment(Beside(a, b, c, d), st, at) && Wired(ss, st) && Ordered(ss)
    ensures |ss| == 6 && st[3].links == 3 && !st[3].dc
    ensures var w := VisitAll(Survey(ss, 0), 1, |ss|).ss; w[2].parentport == 3 && w[2].pdelay - w[1].pdelay == a
  {
    hide Segment, Beside, AllCabled, VisitAll, Wired;
    var t := Beside(a, b, c, d);
    BesideLaid(a, b, c, d, st, at);
    BesideCabled(a, b, c, d);
    SegmentRanked(t, st, at);
    assert ForksLast(st);
    ForksLastAreRight(t, st, at, ss);
    assert Right(VisitAll(Survey(ss, 0), 1, |ss|).ss, st, 2);
  }

  // ----- The program: slave records updated in place -----

  /** Reads the latched times of a slave and takes its entry port out. */
  method LatchTimes(ss: array<Dc>, i: nat)
    requires 1 <= i < ss.Length
    modifies ss
    ensures ss[..] == old(ss[..])[i := Latched(old(ss[i]))]
  {
    ss[i] := ss[i].(times := ss[i].regs);
    var entry := EntryPort(ss[i].active, ss[i].times);
    ss[i] := ss[i].(entryport := entry);
    ss[i] := ss[i].(consumed := Without(ss[i].active, entry));
  }

  /** Takes the first port a slave has left. */
  method TakeParentPort(ss: array<Dc>, parent: nat) returns (port: nat)
    requires parent < ss.Length
    modifies ss
    ensures port == FirstLeft(old(ss[parent]).consumed) && ss[..] == TakePort(old(ss[..]), parent)
  {
    port := FirstLeft(ss[parent].consumed);
    ss[parent] := ss[parent].(consumed := Without(ss[parent].consumed, port));
  }

  /** Computes the delay of slave `i` from the times between it and its parent. */
  method ComputeDelay(s: Dc, p: Dc, port: nat, later: bool) returns (pdelay: int)
    ensures pdelay == Delay(s, p, port, later)
  {
    var previous := PrevPort(p.active, port);
    var dt1, dt2 := 0, 0;
    var dt3 := PortTime(p.times, port) - PortTime(p.times, previous);
    if s.topology > 1 {
      dt1 := PortTime(s.times, PrevPort(s.active, s.entryport)) - PortTime(s.times, s.entryport);
    }
    if dt1 > dt3 {
      dt1 := -dt1;
    }
    if later {
      dt2 := PortTime(p.times, previous) - PortTime(p.times, p.entryport);
    }
    if dt2 < 0 {
      dt2 := -dt2;
    }
    pdelay := Half(dt3 - dt1) + dt2 + p.pdelay;
  }

  /** Climbs to the nearest ancestor with a clock. */
  method FindDcParent(ss: array<Dc>, i: nat) returns (parent: nat, child: nat)
    requires Ordered(ss[..]) && 1 <= i < ss.Length
    ensures (parent, child) == DcParent(ss[..], i)
  {
    child := i;
    parent := ss[i].parent;
    while !(parent == 0 || ss[parent].hasdc)
      invariant 1 <= child <= i && parent == ss[child].parent < child
      invariant DcParent(ss[..], child) == DcParent(ss[..], i)
      decreases child
    {
      child := parent;
      parent := ss[parent].parent;
    }
  }

  /** A slave with a clock. */
  method VisitClock(ss: array<Dc>, i: nat, ghost hold: nat)
    requires Sound(Survey(ss[..], hold)) && 1 <= i < ss.Length && ss[i].hasdc
    modifies ss
    ensures Survey(ss[..], 0) == Visit(Survey(old(ss[..]), hold), i)
  {
    ghost var before := ss[..];
    LatchTimes(ss, i);
    var parent, child := FindDcParent(ss, i);
    SameDcParent(before, ss[..], i);
    if parent > 0 {
      var port := TakeParentPort(ss, parent);
      if ss[parent].topology == 1 {
        port := ss[parent].entryport;
      }
      ss[i] := ss[i].(parentport := port);
      var pdelay := ComputeDelay(ss[i], ss[parent], port, child - parent > 1);
      ss[i] := ss[i].(pdelay := pdelay);
    }
  }

  lemma {:induction false} SameDcParent(ss: seq<Dc>, tt: seq<Dc>, i: nat)
    requires Ordered(ss) && |ss| == |tt| && 1 <= i < |ss|
    requires forall j :: 0 <= j < |ss| ==> tt[j].parent == ss[j].parent && tt[j].hasdc == ss[j].hasdc
    ensures Ordered(tt) && DcParent(tt, i) == DcParent(ss, i)
    decreases i
  {
    var parent := ss[i].parent;
    if parent > 0 && !ss[parent].hasdc {
      SameDcParent(ss, tt, parent);
    }
  }

  /** A slave without a clock: a branch that has none at all uses up a port of its root. */
  method VisitPlain(ss: array<Dc>, i: nat, hold: nat) returns (parenthold: nat)
    requires Sound(Survey(ss[..], hold)) && 1 <= i < ss.Length && !ss[i].hasdc
    modifies ss
    ensures Survey(ss[..], parenthold) == Visit(Survey(old(ss[..]), hold), i)
  {
    parenthold := hold;
    ss[i] := ss[i].(times := Latch(0, 0, 0, 0), consumed := ss[i].active);
    var parent := ss[i].parent;
    if parent > 0 && ss[parent].topology > 2 {
      parenthold := parent;
    }
    if parenthold > 0 && ss[i].topology == 1 {
      var _ := TakeParentPort(ss, parenthold);
      parenthold := 0;
    }
  }

  /** All slaves in order. */
  method MeasureDelays(ss: array<Dc>)
    requires ss.Length >= 1 && Ordered(ss[..])
    modifies ss
    ensures Sound(Survey(old(ss[..]), 0))
    ensures ss[..] == VisitAll(Survey(old(ss[..]), 0), 1, ss.Length).ss
  {
    var parenthold := 0;
    for i := 1 to ss.Length
      invariant Sound(Survey(ss[..], parenthold))
      invariant VisitAll(Survey(old(ss[..]), 0), 1, ss.Length) == VisitAll(Survey(ss[..], parenthold), i, ss.Length)
    {
      if ss[i].hasdc {
        VisitClock(ss, i, parenthold);
        parenthold := 0;
      } else {
        parenthold := VisitPlain(ss, i, parenthold);
      }
    }
  }
}
