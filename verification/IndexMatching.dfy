/** Frame indices: how a master with many requests under way finds out whose reply came in.

    A request takes an index, sends its frame under it, looks at the socket until the reply is
    there and gives the index back.  A frame read while looking for another one is stored for the
    request it belongs to.  The mutexes of the port make each of these one step.
  */
module IndexMatching {
  import opened Ring

  datatype Status = Empty | Alloc | Tx | Rcvd | Complete

  /** A frame on the wire: its index, the transmission it answers, what came back. */
  datatype Frame = Frame(index: nat, sent: nat, data: seq<int>, wkc: nat)

  // ----- Taking an index -----

  /** Index `i` is the first empty one after `last`, going round. */
  predicate IsNextEmpty(stat: seq<Status>, last: nat, i: nat)
  {
    && i < |stat| && stat[i] == Empty
    && forall k :: 0 <= k < |stat| && stat[k] == Empty ==>
         Offset(Next(last, |stat|), i, |stat|) <= Offset(Next(last, |stat|), k, |stat|)
  }

  /** The index that is taken: the first empty one or, when none is empty, the next one, which is
      still in use. */
  predicate IsTaken(stat: seq<Status>, last: nat, i: nat)
  {
    i < |stat| && if Empty in stat then IsNextEmpty(stat, last, i) else i == Next(last, |stat|)
  }

  /** What a socket hands over, if anything. */
  datatype Packet = Nothing | Packet(frame: Frame)

  const NOFRAME := -1
  const OTHERFRAME := -2

  /** What one look does to status and buffers, what it returns, and whether it found the reply. */
  datatype Look = Look(stat: seq<Status>, rxbuf: seq<Frame>, rval: int, found: bool)

  /** One look for the reply to `idx`: taken from the buffer if it is there, else the packet read
      from the socket is kept for whoever waits for it. */
  function LookFor(stat: seq<Status>, rxbuf: seq<Frame>, idx: nat, packet: Packet): Look
    requires idx < |stat| == |rxbuf|
  {
    if stat[idx] == Rcvd then Look(stat[idx := Complete], rxbuf, rxbuf[idx].wkc, true)
    else
      match packet
      case Nothing => Look(stat, rxbuf, NOFRAME, false)
      case Packet(f) =>
        if f.index == idx then Look(stat[idx := Complete], rxbuf[idx := f], f.wkc, true)
        else if f.index < |stat| && stat[f.index] == Tx then
          Look(stat[f.index := Rcvd], rxbuf[f.index := f], OTHERFRAME, false)
        else Look(stat, rxbuf, OTHERFRAME, false)
  }

  class Port {
    const rxbufstat: array<Status>
    const rxbuf: array<Frame>
    var lastidx: nat

    ghost predicate Valid()
      reads this
    {
      rxbufstat.Length > 0 && rxbuf.Length == rxbufstat.Length && lastidx < rxbufstat.Length
    }

    constructor (size: nat)
      requires size > 0
      ensures Valid() && rxbufstat.Length == size && fresh(rxbufstat) && fresh(rxbuf)
      ensures lastidx == 0 && forall k :: 0 <= k < size ==> rxbufstat[k] == Empty
    {
      rxbufstat := new Status[size](i => Empty);
      rxbuf := new Frame[size](i => Frame(0, 0, [], 0));
      lastidx := 0;
    }

    method GetIndex() returns (idx: nat)
      requires Valid()
      modifies this`lastidx, rxbufstat
      ensures Valid() && lastidx == idx
      ensures rxbufstat[..] == old(rxbufstat[..])[idx := Alloc]
      ensures IsTaken(old(rxbufstat[..]), old(lastidx), idx)
    {
      var n := rxbufstat.Length;
      var start := Next(lastidx, n);
      idx := start;
      var cnt := 0;
      while rxbufstat[idx] != Empty && cnt < n
        invariant cnt <= n && idx < n
        invariant idx == if cnt == n then start else At(start, cnt, n)
        invariant forall j: nat :: j < cnt ==> rxbufstat[At(start, j, n)] != Empty
      {
        assert idx == At(start, cnt, n);
        idx := Next(idx, n);
        cnt := cnt + 1;
      }
      forall k | 0 <= k < n && rxbufstat[k] == Empty
        ensures cnt < n && cnt <= Offset(start, k, n)
      {
        assert k == At(start, Offset(start, k, n), n);
      }
      rxbufstat[idx] := Alloc;
      lastidx := idx;
    }

    method InFrame(idx: nat, packet: Packet) returns (rval: int)
      requires Valid() && idx < rxbufstat.Length
      modifies rxbufstat, rxbuf
      ensures old(rxbufstat[idx]) == Rcvd ==>
                && rval == old(rxbuf[idx]).wkc
                && rxbufstat[..] == old(rxbufstat[..])[idx := Complete] && rxbuf[..] == old(rxbuf[..])
      ensures old(rxbufstat[idx]) != Rcvd && packet.Nothing? ==>
                rval == NOFRAME && rxbufstat[..] == old(rxbufstat[..]) && rxbuf[..] == old(rxbuf[..])
      ensures old(rxbufstat[idx]) != Rcvd && packet.Packet? && packet.frame.index == idx ==>
                && rval == packet.frame.wkc && rxbuf[..] == old(rxbuf[..])[idx := packet.frame]
                && rxbufstat[..] == old(rxbufstat[..])[idx := Complete]
      ensures old(rxbufstat[idx]) != Rcvd && packet.Packet? && packet.frame.index != idx ==>
                var j := packet.frame.index;
                && rval == OTHERFRAME
                && if j < rxbufstat.Length && old(rxbufstat[j]) == Tx
                   then rxbuf[..] == old(rxbuf[..])[j := packet.frame]
                        && rxbufstat[..] == old(rxbufstat[..])[j := Rcvd]
                   else rxbuf[..] == old(rxbuf[..]) && rxbufstat[..] == old(rxbufstat[..])
      ensures var l := LookFor(old(rxbufstat[..]), old(rxbuf[..]), idx, packet);
              rxbufstat[..] == l.stat && rxbuf[..] == l.rxbuf && rval == l.rval
    {
      rval := NOFRAME;
      if rxbufstat[idx] == Rcvd {
        rval := rxbuf[idx].wkc;
        rxbufstat[idx] := Complete;
      } else if packet.Packet? {
        rval := OTHERFRAME;
        var idxf := packet.frame.index;
        if idxf == idx {
          rxbuf[idx] := packet.frame;
          rval := rxbuf[idx].wkc;
          rxbufstat[idx] := Complete;
        } else if idxf < rxbufstat.Length && rxbufstat[idxf] == Tx {
          rxbuf[idxf] := packet.frame;
          rxbufstat[idxf] := Rcvd;
        }
      }
    }
  }

  // ----- The system -----

  /** What a client does with an index: it has taken it, it waits for the reply to transmission
      `sent`, or it has read a reply to that and was returned `rval`. */
  datatype Use = Held | Waiting(sent: nat) | Got(sent: nat, frame: Frame, rval: int)

  /** `last` is the index taken last; `use[i]` are the clients that use index `i`, in the order they
      took it; `answers[t]` is the frame the network makes of transmission `t`; `got` are the
      transmissions whose replies clients have read. */
  datatype Sys = Sys(n: nat, last: nat, stat: seq<Status>, rxbuf: seq<Frame>, use: seq<seq<Use>>, wire: seq<Frame>,
                     answers: seq<Frame>, got: seq<nat>)

  /** Steps of client `u` of index `i`: taking the index, sending, a send the socket refuses, a look
      that finds the reply in the buffer, a look that reads frame `k` of the wire, giving the index
      back; and the loss of a frame. */
  datatype Action =
    | Get(i: nat)
    | Send(i: nat, u: nat, data: seq<int>, wkc: nat)
    | SendFails(i: nat, u: nat)
    | Take(i: nat, u: nat)
    | Receive(i: nat, u: nat, k: nat)
    | Lose(k: nat)
    | Release(i: nat, u: nat)

  predicate Sized(s: Sys)
  {
    |s.stat| == s.n && |s.rxbuf| == s.n && |s.use| == s.n && (s.n > 0 ==> s.last < s.n)
  }

  /** There is such a client. */
  predicate Uses(s: Sys, i: nat, u: nat)
    requires Sized(s)
  {
    i < s.n && u < |s.use[i]|
  }

  predicate Enabled(s: Sys, a: Action)
    requires Sized(s)
  {
    match a
    case Get(i) => IsTaken(s.stat, s.last, i)
    case Send(i, u, _, _) => Uses(s, i, u) && !s.use[i][u].Got?
    case SendFails(i, u) => Uses(s, i, u) && !s.use[i][u].Got?
    case Take(i, u) => Uses(s, i, u) && s.use[i][u].Waiting? && s.stat[i] == Rcvd
    case Receive(i, u, k) => Uses(s, i, u) && s.use[i][u].Waiting? && s.stat[i] != Rcvd && k < |s.wire|
    case Lose(k) => k < |s.wire|
    case Release(i, u) => Uses(s, i, u)
  }

  function Without<T>(list: seq<T>, k: nat): seq<T>
    requires k < |list|
  {
    list[..k] + list[k + 1..]
  }

  /** Client `u` of index `i` after a look of its own. */
  function Looked(s: Sys, i: nat, u: nat, l: Look): Sys
    requires Sized(s) && Uses(s, i, u) && s.use[i][u].Waiting? && |l.rxbuf| == s.n
  {
    var t := s.use[i][u].sent;
    if l.found then
      s.(stat := l.stat, rxbuf := l.rxbuf, use := s.use[i := s.use[i][u := Got(t, l.rxbuf[i], l.rval)]],
         got := s.got + [t])
    else s.(stat := l.stat, rxbuf := l.rxbuf)
  }

  function Apply(s: Sys, a: Action): Sys
    requires Sized(s) && Enabled(s, a)
  {
    match a
    case Get(i) => s.(last := i, stat := s.stat[i := Alloc], use := s.use[i := s.use[i] + [Held]])
    case Send(i, u, data, wkc) =>
      var f := Frame(i, |s.answers|, data, wkc);
      s.(stat := s.stat[i := Tx], use := s.use[i := s.use[i][u := Waiting(|s.answers|)]],
         wire := s.wire + [f], answers := s.answers + [f])
    case SendFails(i, u) =>
      s.(stat := s.stat[i := Empty], use := s.use[i := s.use[i][u := Waiting(|s.answers|)]],
         answers := s.answers + [Frame(i, |s.answers|, [], 0)])
    case Take(i, u) => Looked(s, i, u, LookFor(s.stat, s.rxbuf, i, Nothing))
    case Receive(i, u, k) =>
      Looked(s.(wire := Without(s.wire, k)), i, u, LookFor(s.stat, s.rxbuf, i, Packet(s.wire[k])))
    case Lose(k) => s.(wire := Without(s.wire, k))
    case Release(i, u) => s.(stat := s.stat[i := Empty], use := s.use[i := Without(s.use[i], u)])
  }

  /** No frame of an index is on the wire. */
  predicate Clear(wire: seq<Frame>, i: nat)
  {
    forall k :: 0 <= k < |wire| ==> wire[k].index != i
  }

  /** No index is taken unless one is empty, nothing is sent while a frame of the same index is on
      the wire, and no send fails. */
  predicate Guarded(s: Sys, a: Action)
  {
    match a
    case Get(_) => Empty in s.stat
    case Send(i, _, _, _) => Clear(s.wire, i)
    case SendFails(_, _) => false
    case _ => true
  }

  // ----- The invariant -----

  predicate OneForEach(wire: seq<Frame>)
  {
    forall j, k :: 0 <= j < k < |wire| ==> wire[j].index != wire[k].index
  }

  /** Every frame on the wire is an answer, and there is one at most for an index. */
  predicate WireOk(wire: seq<Frame>, answers: seq<Frame>)
  {
    && OneForEach(wire)
    && forall k :: 0 <= k < |wire| ==> wire[k].sent < |answers| && wire[k] == answers[wire[k].sent]
  }

  /** An index has one client or, if it is empty, none; its buffer, the wire and the client agree. */
  predicate IndexOk(i: nat, stat: Status, rx: Frame, use: seq<Use>, wire: seq<Frame>, answers: seq<Frame>,
          got: seq<nat>)
  {
    if use == [] then stat == Empty
    else |use| == 1 && ClientOk(i, stat, rx, use[0], wire, answers, got)
  }

  predicate ClientOk(i: nat, stat: Status, rx: Frame, use: Use, wire: seq<Frame>, answers: seq<Frame>, got: seq<nat>)
  {
    match use
    case Held => stat == Alloc
    case Waiting(t) =>
      && t < |answers| && answers[t].index == i && t !in got && (stat == Tx || stat == Rcvd)
      && (stat == Rcvd ==> rx == answers[t] && Clear(wire, i))
      && (forall k :: 0 <= k < |wire| && wire[k].index == i ==> wire[k] == answers[t])
    case Got(t, f, rval) => stat == Complete && t < |answers| && f == answers[t] && rval == answers[t].wkc
  }

  predicate GotOk(got: seq<nat>, answers: seq<Frame>)
  {
    Distinct(got) && forall j :: 0 <= j < |got| ==> got[j] < |answers|
  }

  predicate Numbered(answers: seq<Frame>)
  {
    forall t :: 0 <= t < |answers| ==> answers[t].sent == t
  }

  predicate Inv(s: Sys)
  {
    && Sized(s) && WireOk(s.wire, s.answers) && GotOk(s.got, s.answers) && Numbered(s.answers)
    && forall i :: 0 <= i < s.n ==> IndexOk(i, s.stat[i], s.rxbuf[i], s.use[i], s.wire, s.answers, s.got)
  }

  function Init(n: nat): Sys
  {
    Sys(n, 0, seq(n, i => Empty), seq(n, i => Frame(0, 0, [], 0)), seq(n, i => []), [], [], [])
  }

  lemma {:induction false} InitHolds(n: nat)
    ensures Inv(Init(n))
  {
  }

  lemma {:induction false} WireShrinks(wire: seq<Frame>, k: nat, answers: seq<Frame>)
    requires k < |wire| && WireOk(wire, answers)
    ensures WireOk(Without(wire, k), answers) && Clear(Without(wire, k), wire[k].index)
    ensures forall j :: 0 <= j < |Without(wire, k)| ==> Without(wire, k)[j] in wire
  {
    var w := Without(wire, k);
    assert forall j :: 0 <= j < |w| ==> w[j] == wire[if j < k then j else j + 1];
  }

  lemma {:induction false} GetKeeps(s: Sys, i: nat)
    requires Inv(s) && Enabled(s, Get(i)) && Guarded(s, Get(i))
    ensures Inv(Apply(s, Get(i)))
  {
    assert IndexOk(i, s.stat[i], s.rxbuf[i], s.use[i], s.wire, s.answers, s.got);
  }

  lemma {:induction false} ReleaseKeeps(s: Sys, i: nat, u: nat)
    requires Inv(s) && Enabled(s, Release(i, u))
    ensures Inv(Apply(s, Release(i, u)))
  {
    assert IndexOk(i, s.stat[i], s.rxbuf[i], s.use[i], s.wire, s.answers, s.got);
    assert Without(s.use[i], u) == [];
  }

  lemma {:induction false} SendKeeps(s: Sys, i: nat, u: nat, data: seq<int>, wkc: nat)
    requires Inv(s) && Enabled(s, Send(i, u, data, wkc)) && Guarded(s, Send(i, u, data, wkc))
    ensures Inv(Apply(s, Send(i, u, data, wkc)))
  {
    var r := Apply(s, Send(i, u, data, wkc));
    assert IndexOk(i, s.stat[i], s.rxbuf[i], s.use[i], s.wire, s.answers, s.got);
    forall j | 0 <= j < s.n
      ensures IndexOk(j, r.stat[j], r.rxbuf[j], r.use[j], r.wire, r.answers, r.got)
    {
      assert IndexOk(j, s.stat[j], s.rxbuf[j], s.use[j], s.wire, s.answers, s.got);
    }
  }

  lemma {:induction false} LoseKeeps(s: Sys, k: nat)
    requires Inv(s) && k < |s.wire|
    ensures Inv(s.(wire := Without(s.wire, k))) && Clear(Without(s.wire, k), s.wire[k].index)
  {
    var r := s.(wire := Without(s.wire, k));
    WireShrinks(s.wire, k, s.answers);
    forall j | 0 <= j < s.n
      ensures IndexOk(j, r.stat[j], r.rxbuf[j], r.use[j], r.wire, r.answers, r.got)
    {
      assert IndexOk(j, s.stat[j], s.rxbuf[j], s.use[j], s.wire, s.answers, s.got);
    }
  }

  /** A reply read takes its transmission off the wire, and off no other waiting client. */
  lemma {:induction false} ReadKeeps(s: Sys, i: nat, f: Frame)
    requires Inv(s) && Uses(s, i, 0) && s.use[i][0].Waiting? && f == s.answers[s.use[i][0].sent] && Clear(s.wire, i)
    ensures Inv(Looked(s, i, 0, Look(s.stat[i := Complete], s.rxbuf[i := f], f.wkc, true)))
  {
    var r := Looked(s, i, 0, Look(s.stat[i := Complete], s.rxbuf[i := f], f.wkc, true));
    assert IndexOk(i, s.stat[i], s.rxbuf[i], s.use[i], s.wire, s.answers, s.got);
    forall j | 0 <= j < s.n
      ensures IndexOk(j, r.stat[j], r.rxbuf[j], r.use[j], r.wire, r.answers, r.got)
    {
      assert IndexOk(j, s.stat[j], s.rxbuf[j], s.use[j], s.wire, s.answers, s.got);
    }
  }

  lemma {:induction false} StoreKeeps(s: Sys, i: nat, f: Frame)
    requires Inv(s) && Uses(s, i, 0) && s.stat[i] == Tx && s.use[i][0].Waiting? && f == s.answers[s.use[i][0].sent]
    requires Clear(s.wire, i)
    ensures Inv(s.(rxbuf := s.rxbuf[i := f], stat := s.stat[i := Rcvd]))
  {
    var r := s.(rxbuf := s.rxbuf[i := f], stat := s.stat[i := Rcvd]);
    forall j | 0 <= j < s.n
      ensures IndexOk(j, r.stat[j], r.rxbuf[j], r.use[j], r.wire, r.answers, r.got)
    {
      assert IndexOk(j, s.stat[j], s.rxbuf[j], s.use[j], s.wire, s.answers, s.got);
    }
  }

  lemma {:induction false} ReceiveKeeps(s: Sys, i: nat, u: nat, k: nat)
    requires Inv(s) && Enabled(s, Receive(i, u, k))
    ensures Inv(Apply(s, Receive(i, u, k)))
  {
    var f := s.wire[k];
    LoseKeeps(s, k);
    var rest := s.(wire := Without(s.wire, k));
    assert IndexOk(i, s.stat[i], s.rxbuf[i], s.use[i], s.wire, s.answers, s.got);
    if f.index == i {
      ReadKeeps(rest, i, f);
    } else if f.index < s.n && s.stat[f.index] == Tx {
      var j := f.index;
      assert IndexOk(j, s.stat[j], s.rxbuf[j], s.use[j], s.wire, s.answers, s.got);
      StoreKeeps(rest, j, f);
    }
  }

  lemma {:induction false} TakeKeeps(s: Sys, i: nat, u: nat)
    requires Inv(s) && Enabled(s, Take(i, u))
    ensures Inv(Apply(s, Take(i, u)))
  {
    assert IndexOk(i, s.stat[i], s.rxbuf[i], s.use[i], s.wire, s.answers, s.got);
    assert s.rxbuf[i := s.rxbuf[i]] == s.rxbuf;
    ReadKeeps(s, i, s.rxbuf[i]);
  }

  lemma {:induction false} LoseStepKeeps(s: Sys, k: nat)
    requires Inv(s) && Enabled(s, Lose(k))
    ensures Inv(Apply(s, Lose(k)))
  {
    LoseKeeps(s, k);
  }

  lemma {:induction false} NoneFails(s: Sys, a: Action)
    requires Guarded(s, a)
    ensures !a.SendFails?
  {
  }

  lemma {:induction false} StepKeeps(s: Sys, a: Action)
    requires Inv(s) && Enabled(s, a) && Guarded(s, a)
    ensures Inv(Apply(s, a))
  {
    hide Inv, Apply, Enabled, Guarded, IndexOk;
    NoneFails(s, a);
    match a
    case Get(i) => GetKeeps(s, i);
    case Send(i, u, data, wkc) => SendKeeps(s, i, u, data, wkc);
    case Take(i, u) => TakeKeeps(s, i, u);
    case Receive(i, u, k) => ReceiveKeeps(s, i, u, k);
    case Lose(k) => LoseStepKeeps(s, k);
    case Release(i, u) => ReleaseKeeps(s, i, u);
  }

  // ----- Runs -----

  ghost predicate Runs(s: Sys, run: seq<Action>)
    decreases run
  {
    run != [] ==> Sized(s) && Enabled(s, run[0]) && Runs(Apply(s, run[0]), run[1..])
  }

  ghost function Exec(s: Sys, run: seq<Action>): Sys
    requires Runs(s, run)
    decreases run
  {
    if run == [] then s else Exec(Apply(s, run[0]), run[1..])
  }

  ghost predicate AllGuarded(s: Sys, run: seq<Action>)
    requires Runs(s, run)
    decreases run
  {
    run != [] ==> Guarded(s, run[0]) && AllGuarded(Apply(s, run[0]), run[1..])
  }

  lemma {:induction false} RunKeeps(s: Sys, run: seq<Action>)
    requires Inv(s) && Runs(s, run) && AllGuarded(s, run)
    ensures Inv(Exec(s, run))
    decreases run
  {
    hide Inv, Apply, Enabled, Guarded;
    if run != [] {
      StepKeeps(s, run[0]);
      RunKeeps(Apply(s, run[0]), run[1..]);
    }
  }

  /** Client `u` of index `i` has read the reply to another transmission. */
  predicate MixedUp(s: Sys, i: nat, u: nat)
  {
    i < |s.use| && u < |s.use[i]| && s.use[i][u].Got? && s.use[i][u].frame.sent != s.use[i][u].sent
  }

  /** In every guarded run, whatever the order in which frames arrive and whoever reads them: an
      index has one client at most, a client gets the reply to its own transmission and is returned
      the working counter of that, and no transmission's reply is read twice. */
  lemma {:induction false} RepliesMatch(n: nat, run: seq<Action>)
    requires Runs(Init(n), run) && AllGuarded(Init(n), run)
    ensures var s := Exec(Init(n), run);
            && Sized(s) && Distinct(s.got)
            && (forall i :: 0 <= i < s.n ==> |s.use[i]| <= 1)
            && (forall i, u :: 0 <= i < s.n && 0 <= u < |s.use[i]| && s.use[i][u].Got? ==>
                  && s.use[i][u].sent < |s.answers| && s.use[i][u].frame == s.answers[s.use[i][u].sent]
                  && s.use[i][u].rval == s.answers[s.use[i][u].sent].wkc
                  && !MixedUp(s, i, u))
  {
    InitHolds(n);
    RunKeeps(Init(n), run);
    var s := Exec(Init(n), run);
    assert forall i :: 0 <= i < s.n ==> IndexOk(i, s.stat[i], s.rxbuf[i], s.use[i], s.wire, s.answers, s.got);
  }

  /** No reply is thrown away: whichever client reads the frame, its owner has it at once or
      finds it in its buffer. */
  lemma {:induction false} ReceivedIsKept(s: Sys, i: nat, u: nat, k: nat)
    requires Inv(s) && Enabled(s, Receive(i, u, k))
    requires Uses(s, s.wire[k].index, 0) && s.use[s.wire[k].index][0].Waiting?
    ensures var f := s.wire[k];
            var j, r := f.index, Apply(s, Receive(i, u, k));
            && s.use[j] == [Waiting(f.sent)]
            && if j == i then r.use[j] == [Got(f.sent, f, f.wkc)] && |r.got| == |s.got| + 1
               else Enabled(r, Take(j, 0)) && Apply(r, Take(j, 0)).use[j] == [Got(f.sent, f, f.wkc)]
  {
    var f := s.wire[k];
    var j := f.index;
    assert IndexOk(j, s.stat[j], s.rxbuf[j], s.use[j], s.wire, s.answers, s.got);
    assert IndexOk(i, s.stat[i], s.rxbuf[i], s.use[i], s.wire, s.answers, s.got);
    assert s.stat[j] != Rcvd;
  }

  // ----- The guard is exact -----

  /** Guarded steps alone can lead to a client with a reply that is not its own. */
  ghost predicate Endangered(s: Sys)
  {
    exists run: seq<Action>, i: nat, u: nat :: Runs(s, run) && AllGuarded(s, run) && MixedUp(Exec(s, run), i, u)
  }

  lemma {:induction false} AtOnce(s: Sys, i: nat, u: nat)
    requires MixedUp(s, i, u)
    ensures Endangered(s)
  {
    assert Runs(s, []) && AllGuarded(s, []) && Exec(s, []) == s;
  }

  lemma {:induction false} AfterStep(s: Sys, a: Action)
    requires Sized(s) && Enabled(s, a) && Guarded(s, a) && Endangered(Apply(s, a))
    ensures Endangered(s)
  {
    hide Apply, Enabled, Guarded, Sized, MixedUp;
    var run: seq<Action>, i: nat, u: nat :|
      Runs(Apply(s, a), run) && AllGuarded(Apply(s, a), run) && MixedUp(Exec(Apply(s, a), run), i, u);
    var more := [a] + run;
    assert more[0] == a && more[1..] == run;
    assert Runs(s, more) && AllGuarded(s, more) && Exec(s, more) == Exec(Apply(s, a), run);
  }

  lemma {:induction false} InvNotMixed(s: Sys, i: nat, u: nat)
    requires Inv(s)
    ensures !MixedUp(s, i, u)
  {
    if i < s.n {
      assert IndexOk(i, s.stat[i], s.rxbuf[i], s.use[i], s.wire, s.answers, s.got);
    }
  }

  lemma {:induction false} InvIsSafe(s: Sys)
    requires Inv(s)
    ensures !Endangered(s)
  {
    hide Inv, MixedUp;
    forall run: seq<Action>, i: nat, u: nat | Runs(s, run) && AllGuarded(s, run)
      ensures !MixedUp(Exec(s, run), i, u)
    {
      RunKeeps(s, run);
      InvNotMixed(Exec(s, run), i, u);
    }
  }

  lemma {:induction false} OneLost(wire: seq<Frame>, k: nat)
    requires k < |wire| && OneForEach(wire)
    ensures OneForEach(Without(wire, k)) && Clear(Without(wire, k), wire[k].index)
  {
    var w := Without(wire, k);
    assert forall j :: 0 <= j < |w| ==> w[j] == wire[if j < k then j else j + 1];
  }

  /** A client waits while another holds the same index: the other sends, and the first reads it. */
  lemma {:induction false} WaitingAndHeld(s: Sys, i: nat)
    requires Sized(s) && i < s.n && |s.use[i]| == 2 && s.use[i][0].Waiting? && s.use[i][1] == Held
    requires s.use[i][0].sent < |s.answers| && s.stat[i] != Rcvd && OneForEach(s.wire)
    ensures Endangered(s)
    decreases |s.wire|
  {
    if Clear(s.wire, i) {
      var s1 := Apply(s, Send(i, 1, [], 0));
      assert s1.wire[|s.wire|] == Frame(i, |s.answers|, [], 0);
      AtOnce(Apply(s1, Receive(i, 0, |s.wire|)), i, 0);
      AfterStep(s1, Receive(i, 0, |s.wire|));
      AfterStep(s, Send(i, 1, [], 0));
    } else {
      var k: nat :| k < |s.wire| && s.wire[k].index == i;
      OneLost(s.wire, k);
      assert |Without(s.wire, k)| < |s.wire|;
      WaitingAndHeld(Apply(s, Lose(k)), i);
      AfterStep(s, Lose(k));
    }
  }

  /** Two clients hold the same index: the first sends and waits. */
  lemma {:induction false} BothHeld(s: Sys, i: nat)
    requires Sized(s) && i < s.n && s.use[i] == [Held, Held] && OneForEach(s.wire)
    ensures Endangered(s)
    decreases |s.wire|
  {
    if Clear(s.wire, i) {
      WaitingAndHeld(Apply(s, Send(i, 0, [], 0)), i);
      AfterStep(s, Send(i, 0, [], 0));
    } else {
      var k: nat :| k < |s.wire| && s.wire[k].index == i;
      OneLost(s.wire, k);
      assert |Without(s.wire, k)| < |s.wire|;
      BothHeld(Apply(s, Lose(k)), i);
      AfterStep(s, Lose(k));
    }
  }

  /** Taking an index that is still in use. */
  lemma {:induction false} GetInUse(s: Sys, i: nat)
    requires Inv(s) && Enabled(s, Get(i)) && Empty !in s.stat
    ensures Endangered(Apply(s, Get(i)))
  {
    assert IndexOk(i, s.stat[i], s.rxbuf[i], s.use[i], s.wire, s.answers, s.got);
    var r := Apply(s, Get(i));
    match s.use[i][0]
    case Waiting(_) => WaitingAndHeld(r, i);
    case Held => BothHeld(r, i);
    case Got(_, _, _) =>
      var r1 := Apply(r, Release(i, 0));
      assert r1.use[i] == [Held] && r1.stat[i] == Empty;
      assert forall k :: 0 <= k < s.n && k != i ==> r1.stat[k] == s.stat[k];
      assert IsNextEmpty(r1.stat, r1.last, i);
      BothHeld(Apply(r1, Get(i)), i);
      AfterStep(r1, Get(i));
      AfterStep(r, Release(i, 0));
  }

  /** Sending while an older frame of the index is on the wire. */
  lemma {:induction false} SendOver(s: Sys, a: Action)
    requires Inv(s) && a.Send? && Enabled(s, a) && !Clear(s.wire, a.i)
    ensures Endangered(Apply(s, a))
  {
    var k: nat :| k < |s.wire| && s.wire[k].index == a.i;
    var r := Apply(s, a);
    assert IndexOk(a.i, s.stat[a.i], s.rxbuf[a.i], s.use[a.i], s.wire, s.answers, s.got);
    assert r.wire[k] == s.wire[k] && Enabled(r, Receive(a.i, a.u, k));
    AtOnce(Apply(r, Receive(a.i, a.u, k)), a.i, a.u);
    AfterStep(r, Receive(a.i, a.u, k));
  }

  lemma {:induction false} NextEmptyExists(stat: seq<Status>, last: nat, k: nat) returns (j: nat)
    requires last < |stat| && k < |stat| && stat[k] == Empty
    ensures IsNextEmpty(stat, last, j)
    decreases Offset(Next(last, |stat|), k, |stat|)
  {
    if IsNextEmpty(stat, last, k) {
      j := k;
    } else {
      var m: nat :| m < |stat| && stat[m] == Empty &&
                    Offset(Next(last, |stat|), m, |stat|) < Offset(Next(last, |stat|), k, |stat|);
      j := NextEmptyExists(stat, last, m);
    }
  }

  /** A client waits for a frame that was never sent: its index is empty, and taken in its turn. */
  lemma {:induction false} WaitingForNothing(s: Sys, i: nat)
    requires Sized(s) && i < s.n && |s.use[i]| == 1 && s.use[i][0].Waiting? && s.use[i][0].sent < |s.answers|
    requires s.stat[i] == Empty && OneForEach(s.wire)
    ensures Endangered(s)
    decreases Offset(Next(s.last, s.n), i, s.n)
  {
    var j := NextEmptyExists(s.stat, s.last, i);
    var r := Apply(s, Get(j));
    if j == i {
      WaitingAndHeld(r, i);
    } else {
      WaitingForNothing(r, i);
    }
    AfterStep(s, Get(j));
  }

  /** The guard is exact: a step keeps every client safe from a reply that is not its own, whatever
      guarded steps follow, if and only if it is guarded. */
  lemma {:induction false} GuardIsExact(s: Sys, a: Action)
    requires Inv(s) && Enabled(s, a)
    ensures Guarded(s, a) <==> !Endangered(Apply(s, a))
  {
    hide Endangered, Runs;
    if Guarded(s, a) {
      StepKeeps(s, a);
      InvIsSafe(Apply(s, a));
    } else {
      match a
      case Get(i) => GetInUse(s, i);
      case Send(i, _, _, _) => SendOver(s, a);
      case SendFails(i, u) =>
        assert IndexOk(i, s.stat[i], s.rxbuf[i], s.use[i], s.wire, s.answers, s.got);
        WaitingForNothing(Apply(s, a), i);
    }
  }

  // ----- The unguarded steps are reached -----

  /** All indices are free. */
  predicate AtRest(s: Sys)
  {
    && Sized(s) && s.last < s.n
    && forall i :: 0 <= i < s.n ==> s.stat[i] == Empty && s.use[i] == []
  }

  lemma {:induction false} RunsJoin(s: Sys, a: seq<Action>, b: seq<Action>)
    requires Runs(s, a) && AllGuarded(s, a) && Runs(Exec(s, a), b) && AllGuarded(Exec(s, a), b)
    ensures Runs(s, a + b) && AllGuarded(s, a + b) && Exec(s, a + b) == Exec(Exec(s, a), b)
    decreases a
  {
    hide Apply, Enabled, Guarded, Sized;
    if a == [] {
      assert a + b == b;
    } else {
      assert (a + b)[0] == a[0] && (a + b)[1..] == a[1..] + b;
      RunsJoin(Apply(s, a[0]), a[1..], b);
    }
  }

  lemma {:induction false} RunsOne(s: Sys, a: Action)
    requires Sized(s) && Enabled(s, a) && Guarded(s, a)
    ensures Runs(s, [a]) && AllGuarded(s, [a]) && Exec(s, [a]) == Apply(s, a)
  {
    assert [a][1..] == [];
  }

  /** `m` requests that are given up before they are sent only move `last`. */
  lemma {:induction false} GiveUp(s: Sys, m: nat) returns (run: seq<Action>)
    requires AtRest(s) && m < s.n
    ensures Runs(s, run) && AllGuarded(s, run) && Exec(s, run) == s.(last := At(s.last, m, s.n))
    decreases m
  {
    if m == 0 {
      run := [];
    } else {
      var i := Next(s.last, s.n);
      var t := Apply(s, Get(i));
      var u := Apply(t, Release(i, 0));
      assert u.stat == s.stat && u.use == s.use;
      var rest := GiveUp(u, m - 1);
      run := [Get(i), Release(i, 0)] + rest;
      assert run[0] == Get(i) && run[1..] == [Release(i, 0)] + rest;
      assert run[1..][1..] == rest && run[1..][0] == Release(i, 0);
      assert At(i, m - 1, s.n) == At(s.last, m, s.n);
    }
  }

  /** The first request of a fresh port, sent and given up without a reply. */
  lemma {:induction false} FirstGivenUp(n: nat) returns (run: seq<Action>)
    requires n > 0
    ensures Runs(Init(n), run) && AllGuarded(Init(n), run)
    ensures var s := Exec(Init(n), run);
            AtRest(s) && s.n == n && s.last == Next(0, n) && |s.wire| == 1 && s.wire[0].index == s.last
  {
    var i := Next(0, n);
    assert Init(n).stat[i] == Empty && IsNextEmpty(Init(n).stat, 0, i);
    var s1 := Apply(Init(n), Get(i));
    var s2 := Apply(s1, Send(i, 0, [], 0));
    RunsOne(Init(n), Get(i));
    RunsOne(s1, Send(i, 0, [], 0));
    RunsOne(s2, Release(i, 0));
    run := [Get(i)] + [Send(i, 0, [], 0)];
    RunsJoin(Init(n), [Get(i)], [Send(i, 0, [], 0)]);
    RunsJoin(Init(n), run, [Release(i, 0)]);
    run := run + [Release(i, 0)];
  }

  /** And it does happen, in a port of any size: a request given up before its reply came, the
      index back in turn, and the next request about to be sent under it. */
  lemma {:induction false} StaleIsReachable(n: nat) returns (run: seq<Action>, i: nat)
    requires n > 0
    ensures Runs(Init(n), run) && AllGuarded(Init(n), run)
    ensures var s := Exec(Init(n), run);
            Sized(s) && Enabled(s, Send(i, 0, [], 0)) && !Guarded(s, Send(i, 0, [], 0))
  {
    hide Runs, Exec, AllGuarded;
    i := Next(0, n);
    run := FirstGivenUp(n);
    var s := Exec(Init(n), run);
    var more := GiveUp(s, n - 1);
    RunsJoin(Init(n), run, more);
    var t := Exec(s, more);
    RunsOne(t, Get(i));
    RunsJoin(Init(n), run + more, [Get(i)]);
    run := run + more + [Get(i)];
  }

  /** `m` more requests after one another, each holding its index. */
  lemma {:induction false} TakeAll(s: Sys, m: nat) returns (run: seq<Action>)
    requires Sized(s) && m <= s.n && s.last < s.n
    requires forall k :: 0 <= k < s.n ==> (s.stat[k] == Empty <==> Offset(Next(s.last, s.n), k, s.n) < m)
    ensures Runs(s, run) && AllGuarded(s, run) && |run| == m
    ensures var r := Exec(s, run); Sized(r) && r.n == s.n && Empty !in r.stat
    decreases m
  {
    var i := Next(s.last, s.n);
    if m == 0 {
      run := [];
    } else {
      assert Offset(i, i, s.n) == 0;
      var r := Apply(s, Get(i));
      var rest := TakeAll(r, m - 1);
      run := [Get(i)] + rest;
      assert run[0] == Get(i) && run[1..] == rest;
    }
  }

  /** As many requests under way as there are indices, and one more takes an index in use. */
  lemma {:induction false} FullIsReachable(n: nat) returns (run: seq<Action>, i: nat)
    requires n > 0
    ensures Runs(Init(n), run) && AllGuarded(Init(n), run) && |run| == n
    ensures var s := Exec(Init(n), run); Sized(s) && Enabled(s, Get(i)) && !Guarded(s, Get(i))
  {
    run := TakeAll(Init(n), n);
    i := Next(Exec(Init(n), run).last, n);
  }
}
