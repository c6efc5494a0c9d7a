/** The physical shape of an EtherCAT segment, and the one frame that travels through it.

    A slave has its upstream cable on one port and downstream cables on others.  A frame visits the
    ports in the order 0, 3, 1, 2, beginning with the one it enters on, and goes back out where it
    entered; it is processed between ports 0 and 3 (ETG.1000.4, section 6.8).  Slaves are numbered
    from 1 in the order in which they process the frame, here the order in which it reaches them.
  */
module SlaveTree {

  /** A downstream port: either no cable, in which case its receive-time register holds some
      old value, or a cable with the same delay in both directions and a slave behind it. */
  datatype Link = Closed(stale: int) | Open(delay: nat, sub: Tree)

  type Port = p: nat | p < 4

  /** A slave: whether it has a clock, the offset of that clock, the port of its upstream cable, and
      its downstream ports in the order the frame visits them; `idle` is what the register of port 0
      holds when there is no cable. */
  datatype Tree = Slave(dc: bool, clock: int, entry: Port, idle: int, port3: Link, port1: Link, port2: Link)

  /** The four-bit active-port mask. */
  datatype Ports = Ports(p0: bool, p1: bool, p2: bool, p3: bool)

  /** The receive times latched on the four ports. */
  datatype Latch = Latch(a: int, b: int, c: int, d: int)

  /** What is true of one slave of the tree: whether it has a clock, its link count, entry port,
      active ports and latched times, its parent (0 for the master), the parent port its cable is
      on, and when the frame arrives. */
  datatype Station = Station(dc: bool, links: nat, entry: Port, active: Ports, latch: Latch, parent: nat, port: nat,
                             arrival: int)

  function Size(t: Tree): nat
  {
    1 + SizeBehind(t.port3) + SizeBehind(t.port1) + SizeBehind(t.port2)
  }

  function SizeBehind(l: Link): nat
  {
    match l
    case Closed(_) => 0
    case Open(_, sub) => Size(sub)
  }

  /** Time between the frame entering a slave on port 0 and leaving it again on port 0. */
  function Duration(t: Tree): nat
  {
    RoundTrip(t.port3) + RoundTrip(t.port1) + RoundTrip(t.port2)
  }

  function RoundTrip(l: Link): nat
  {
    match l
    case Closed(_) => 0
    case Open(delay, sub) => delay + Duration(sub) + delay
  }

  function Count(l: Link): nat
  {
    if l.Open? then 1 else 0
  }

  function Children(t: Tree): nat
  {
    Count(t.port3) + Count(t.port1) + Count(t.port2)
  }

  function LatchOf(l: Link, time: int): int
  {
    match l
    case Closed(stale) => stale
    case Open(_, _) => time
  }

  /** The facts about the slave at the root of `t` when the frame reaches it at time `at`. */
  function StationOf(t: Tree, parent: nat, port: nat, at: int): Station
  {
    var after3 := at + RoundTrip(t.port3);
    var after1 := after3 + RoundTrip(t.port1);
    var after2 := after1 + RoundTrip(t.port2);
    var now := at + t.clock;
    Station(t.dc, 1 + Children(t), t.entry,
            Ports(t.entry == 0, t.entry == 1 || t.port1.Open?, t.entry == 2 || t.port2.Open?,
                  t.entry == 3 || t.port3.Open?),
            Latch(if t.entry == 0 then now else t.idle,
                  if t.entry == 1 then now else LatchOf(t.port1, after1 + t.clock),
                  if t.entry == 2 then now else LatchOf(t.port2, after2 + t.clock),
                  if t.entry == 3 then now else LatchOf(t.port3, after3 + t.clock)),
            parent, port, at)
  }

  /** Slaves hang only on ports that the frame visits after it is processed; and, if the entry port
      is not port 0, the first of them takes the frame some time. */
  predicate Cabled(t: Tree)
  {
    && (t.entry == 1 || t.entry == 3 ==> t.port1.Closed?)
    && (t.entry != 0 ==> t.port2.Closed?)
    && (t.entry == 3 ==> t.port3.Closed?)
    && (t.entry != 0 && t.port3.Open? ==> RoundTrip(t.port3) > 0)
    && (t.entry != 0 && t.port3.Closed? && t.port1.Open? ==> RoundTrip(t.port1) > 0)
  }

  /** Every slave of the tree is cabled like that. */
  predicate AllCabled(t: Tree)
  {
    Cabled(t) && BehindCabled(t.port3) && BehindCabled(t.port1) && BehindCabled(t.port2)
  }

  predicate BehindCabled(l: Link)
  {
    l.Open? ==> AllCabled(l.sub)
  }

  /** `st` holds the slaves of `t` in numbering order from index `pos` on, when the frame reaches
      the root, which hangs on `port` of slave `parent`, at time `at`. */
  predicate Laid(t: Tree, st: seq<Station>, pos: nat, parent: nat, port: nat, at: int)
    decreases t
  {
    var pos1 := pos + 1 + SizeBehind(t.port3);
    var pos2 := pos1 + SizeBehind(t.port1);
    var at1 := at + RoundTrip(t.port3);
    && pos + Size(t) <= |st|
    && st[pos] == StationOf(t, parent, port, at)
    && LaidBehind(t.port3, st, pos + 1, pos, 3, at)
    && LaidBehind(t.port1, st, pos1, pos, 1, at1)
    && LaidBehind(t.port2, st, pos2, pos, 2, at1 + RoundTrip(t.port1))
  }

  predicate LaidBehind(l: Link, st: seq<Station>, pos: nat, parent: nat, port: nat, at: int)
    decreases l
  {
    && pos + SizeBehind(l) <= |st|
    && (l.Open? ==> Laid(l.sub, st, pos, parent, port, at + l.delay))
  }

  /** The parts of a laid-out tree. */
  lemma {:induction false} LaidParts(t: Tree, st: seq<Station>, pos: nat, parent: nat, port: nat, at: int)
    requires Laid(t, st, pos, parent, port, at)
    ensures Size(t) == 1 + SizeBehind(t.port3) + SizeBehind(t.port1) + SizeBehind(t.port2)
    ensures pos + Size(t) <= |st| && st[pos] == StationOf(t, parent, port, at)
    ensures (SizeBehind(t.port3) == 0 ==> RoundTrip(t.port3) == 0)
            && (SizeBehind(t.port1) == 0 ==> RoundTrip(t.port1) == 0)
    ensures var pos1 := pos + 1 + SizeBehind(t.port3);
            && LaidBehind(t.port3, st, pos + 1, pos, 3, at + 0)
            && LaidBehind(t.port1, st, pos1, pos, 1, at + RoundTrip(t.port3))
            && LaidBehind(t.port2, st, pos1 + SizeBehind(t.port1), pos, 2,
                          at + (RoundTrip(t.port3) + RoundTrip(t.port1)))
  {
  }

  /** `st` is the whole segment: index 0 stands for the master, the rest are the slaves. */
  predicate Segment(t: Tree, st: seq<Station>, at: int)
  {
    |st| == 1 + Size(t) && Laid(t, st, 1, 0, 0, at)
  }

  /** Slaves appended later do not disturb those already laid out. */
  lemma {:induction false} LaidStays(l: Link, st: seq<Station>, more: seq<Station>, pos: nat, parent: nat, port: nat,
          at: int)
    requires LaidBehind(l, st, pos, parent, port, at) && st <= more
    ensures LaidBehind(l, more, pos, parent, port, at)
    decreases l
  {
    if l.Open? {
      var t, start := l.sub, at + l.delay;
      var pos1 := pos + 1 + SizeBehind(t.port3);
      LaidStays(t.port3, st, more, pos + 1, pos, 3, start);
      LaidStays(t.port1, st, more, pos1, pos, 1, start + RoundTrip(t.port3));
      LaidStays(t.port2, st, more, pos1 + SizeBehind(t.port1), pos, 2, start + RoundTrip(t.port3) + RoundTrip(t.port1));
    }
  }

  lemma {:induction false} Lay(l: Link, st: seq<Station>, parent: nat, port: nat, at: int) returns (more: seq<Station>)
    ensures st <= more && |more| == |st| + SizeBehind(l)
    ensures LaidBehind(l, more, |st|, parent, port, at)
    decreases l
  {
    more := st;
    if l.Open? {
      var t, start, pos := l.sub, at + l.delay, |st|;
      var at1 := start + RoundTrip(t.port3);
      var at2 := at1 + RoundTrip(t.port1);
      var more0 := st + [StationOf(t, parent, port, start)];
      var more3 := Lay(t.port3, more0, pos, 3, start);
      var more1 := Lay(t.port1, more3, pos, 1, at1);
      more := Lay(t.port2, more1, pos, 2, at2);
      LaidStays(t.port3, more3, more, pos + 1, pos, 3, start);
      LaidStays(t.port1, more1, more, |more3|, pos, 1, at1);
    }
  }

  /** The first slave of a branch hangs on the slave the branch starts from, the others on
      slaves of the branch itself. */
  lemma {:induction false} ParentsInBranch(l: Link, st: seq<Station>, pos: nat, parent: nat, port: nat, at: int)
    requires LaidBehind(l, st, pos, parent, port, at)
    ensures forall i :: pos <= i < pos + SizeBehind(l) ==>
              if i == pos then st[i].parent == parent else pos <= st[i].parent < i
    decreases l
  {
    if l.Open? {
      var t, start := l.sub, at + l.delay;
      var pos1 := pos + 1 + SizeBehind(t.port3);
      ParentsInBranch(t.port3, st, pos + 1, pos, 3, start);
      ParentsInBranch(t.port1, st, pos1, pos, 1, start + RoundTrip(t.port3));
      ParentsInBranch(t.port2, st, pos1 + SizeBehind(t.port1), pos, 2, start + RoundTrip(t.port3) + RoundTrip(t.port1));
    }
  }

  /** Every tree has a segment. */
  lemma {:induction false} SegmentExists(t: Tree, at: int) returns (st: seq<Station>)
    ensures Segment(t, st, at)
  {
    var master := Station(false, 0, 0, Ports(false, false, false, false), Latch(0, 0, 0, 0), 0, 0, 0);
    st := Lay(Open(0, t), [master], 0, 0, at);
  }
}
