/** File access over EtherCAT: a sender that numbers its packets and repeats the last one when the
    other side is busy, and a receiver that ends at the first packet that is not full
    (ETG.1000.6, section 5.8). */
module Foe {
  import opened Bytes

  datatype Packet = Packet(number: int, data: seq<byte>)

  /** What the other side answers. */
  datatype Reply = Ack(number: int) | Busy | Error(code: int) | Other

  /** Return values: a positive work counter, none, and the error types. */
  datatype Wkc = Good | Nothing | PacketNumber | FileNotFound | FoeError | PacketError | BufTooSmall

  // ----- The sender -----

  /** `psize` bytes are left from `pos` on; `sendpacket` is the last number sent, `segment` the
      length of that packet; `finalzero` asks for an empty packet at the end. */
  datatype Sender = Sender(psize: nat, pos: nat, sendpacket: int, segment: nat, finalzero: bool)

  function Fresh(file: seq<byte>): Sender
  {
    Sender(|file|, 0, 0, 0, true)
  }

  /** A sender never points outside the file. */
  predicate Within(s: Sender, file: seq<byte>)
  {
    s.pos + s.psize == |file| && s.segment <= s.pos
  }

  /** Whether there is something to send, be it an empty last packet. */
  predicate HasMore(s: Sender, maxdata: nat)
  {
    Min(s.psize, maxdata) > 0 || s.finalzero
  }

  function Advance(s: Sender, maxdata: nat): Sender
  {
    var n := Min(s.psize, maxdata);
    Sender(s.psize - n, s.pos + n, s.sendpacket + 1, n, s.psize - n == 0 && n == maxdata)
  }

  /** Takes the last packet back. */
  function Rewind(s: Sender): Sender
    requires s.segment <= s.pos
  {
    s.(psize := s.psize + s.segment, pos := s.pos - s.segment, sendpacket := s.sendpacket - 1)
  }

  /** The packet a sender has just sent. */
  function Last(s: Sender, file: seq<byte>): Packet
    requires Within(s, file)
  {
    Packet(s.sendpacket, file[s.pos - s.segment..s.pos])
  }

  /** What a reply makes of the sender: the new state, whether it has sent a packet, and the
      return value if it stops here. */
  datatype Reaction = Reaction(s: Sender, sends: bool, wkc: Wkc)

  function React(s: Sender, maxdata: nat, reply: Reply): Reaction
    requires s.segment <= s.pos
  {
    match reply
    case Ack(n) =>
      if n != s.sendpacket then Reaction(s, false, PacketNumber)
      else if HasMore(s, maxdata) then Reaction(Advance(s, maxdata), true, Good)
      else Reaction(s, false, Good)
    case Busy =>
      if s.sendpacket == 0 then Reaction(s, false, Good)
      else if HasMore(Rewind(s), maxdata) then Reaction(Advance(Rewind(s), maxdata), true, Good)
      else Reaction(Rewind(s), false, Good)
    case Error(code) => Reaction(s, false, if code == 0x8001 then FileNotFound else FoeError)
    case Other => Reaction(s, false, PacketError)
  }

  /** A reply, and whether the packet sent in answer to it, if any, finds its way into the mailbox
      of the other side. */
  datatype Turn = Turn(reply: Reply, placed: bool)

  /** A whole write: the packets sent in answer to the replies, until one stops it or a packet
      cannot be sent; when the replies end first, the sender has waited in vain. */
  datatype Written = Written(packets: seq<Packet>, s: Sender, wkc: Wkc)

  function Write(s: Sender, file: seq<byte>, maxdata: nat, turns: seq<Turn>): Written
    requires Within(s, file)
    decreases turns
  {
    if turns == [] then Written([], s, Nothing)
    else
      var r := React(s, maxdata, turns[0].reply);
      if !r.sends then Written([], r.s, r.wkc)
      else if !turns[0].placed then Written([], r.s, Nothing)
      else
        var w := Write(r.s, file, maxdata, turns[1..]);
        Written([Last(r.s, file)] + w.packets, w.s, w.wkc)
  }

  /** The common end of both replies that ask for a packet: the next one, if there is any. */
  method SendNext(s: Sender, file: seq<byte>, maxdata: nat) returns (next: Sender, packets: seq<Packet>)
    requires s.pos + s.psize == |file|
    ensures HasMore(s, maxdata) ==> next == Advance(s, maxdata) && Within(next, file) && packets == [Last(next, file)]
    ensures !HasMore(s, maxdata) ==> next == s && packets == []
  {
    next, packets := s, [];
    var tsize := s.psize;
    if tsize > maxdata {
      tsize := maxdata;
    }
    if tsize > 0 || s.finalzero {
      next := next.(finalzero := false, segment := tsize, psize := s.psize - tsize);
      if next.psize == 0 && next.segment == maxdata {
        next := next.(finalzero := true);
      }
      next := next.(sendpacket := next.sendpacket + 1);
      packets := [Packet(next.sendpacket, file[s.pos..s.pos + tsize])];
      next := next.(pos := s.pos + tsize);
    }
  }

  /** One turn of the loop. */
  method Answer(s: Sender, file: seq<byte>, maxdata: nat, reply: Reply)
    returns (next: Sender, packets: seq<Packet>, wkc: Wkc)
    requires Within(s, file)
    ensures var r := React(s, maxdata, reply);
            && next == r.s && (r.sends ==> Within(next, file) && packets == [Last(next, file)])
            && (!r.sends ==> packets == [] && wkc == r.wkc)
  {
    next, packets, wkc := s, [], Good;
    match reply {
      case Ack(n) =>
        if n == s.sendpacket {
          next, packets := SendNext(s, file, maxdata);
        } else {
          wkc := PacketNumber;
        }
      case Busy =>
        if s.sendpacket != 0 {
          next := s.(psize := s.psize + s.segment, pos := s.pos - s.segment, sendpacket := s.sendpacket - 1);
          next, packets := SendNext(next, file, maxdata);
        }
      case Error(code) => wkc := if code == 0x8001 then FileNotFound else FoeError;
      case Other => wkc := PacketError;
    }
  }

  /** The program: one reply after the other until one ends the transfer. */
  method FoeWrite(file: seq<byte>, maxdata: nat, turns: seq<Turn>) returns (packets: seq<Packet>, wkc: Wkc)
    ensures Within(Fresh(file), file)
    ensures var w := Write(Fresh(file), file, maxdata, turns); packets == w.packets && wkc == w.wkc
    ensures maxdata > 0 ==> Wrote(file, maxdata, turns, packets, wkc)
  {
    if maxdata > 0 {
      WriteFollows(Fresh(file), file, maxdata, turns, [], 0);
      assert turns[0..] == turns;
    }
    packets, wkc := [], Nothing;
    var s, worktodo, k := Fresh(file), true, 0;
    ghost var w := Write(s, file, maxdata, turns);
    while worktodo
      invariant 0 <= k <= |turns| && (worktodo ==> Within(s, file))
      invariant worktodo ==>
                  var v := Write(s, file, maxdata, turns[k..]); w.packets == packets + v.packets && w.wkc == v.wkc
      invariant !worktodo ==> w.packets == packets && w.wkc == wkc
      decreases worktodo, |turns| - k
    {
      worktodo := false;
      wkc := Nothing;
      if k < |turns| {
        var sent;
        s, sent, wkc := Answer(s, file, maxdata, turns[k].reply);
        if sent != [] {
          if turns[k].placed {
            worktodo := true;
            packets := packets + sent;
          } else {
            wkc := Nothing;
          }
        }
        k := k + 1;
      }
    }
  }

  // ----- The receiver -----

  /** What has been received: the bytes, the number of the last packet, and whether more is due. */
  datatype Receiver = Receiver(data: seq<byte>, prevpacket: int, worktodo: bool, wkc: Wkc)

  const READY := Receiver([], 0, true, Nothing)

  /** Takes a packet if it has the next number and fits the buffer; a packet that is not full is
      the last one. */
  function Take(r: Receiver, size: nat, maxdata: nat, p: Packet): Receiver
  {
    if p.number == r.prevpacket + 1 && |r.data| + |p.data| <= size then
      Receiver(r.data + p.data, r.prevpacket + 1, |p.data| == maxdata, Good)
    else r.(prevpacket := r.prevpacket + 1, worktodo := false, wkc := BufTooSmall)
  }

  /** What comes in: a packet, and whether its acknowledgement can be sent; an error; anything else. */
  datatype Incoming = Data(packet: Packet, acked: bool) | Failure | Foreign

  function Accept(r: Receiver, size: nat, maxdata: nat, m: Incoming): Receiver
  {
    match m
    case Data(p, acked) =>
      var t := Take(r, size, maxdata, p);
      if t.wkc.Good? && !acked then t.(worktodo := false, wkc := Nothing) else t
    case Failure => r.(worktodo := false, wkc := FoeError)
    case Foreign => r.(worktodo := false, wkc := PacketError)
  }

  /** A whole read; when nothing comes any more, the receiver has waited in vain. */
  function Read(r: Receiver, size: nat, maxdata: nat, ms: seq<Incoming>): Receiver
    decreases ms
  {
    if !r.worktodo then r
    else if ms == [] then r.(worktodo := false, wkc := Nothing)
    else Read(Accept(r, size, maxdata, ms[0]), size, maxdata, ms[1..])
  }

  /** The data of the first `n` packets. */
  function Joined(ms: seq<Incoming>, n: nat): seq<byte>
    requires n <= |ms| && forall i :: 0 <= i < n ==> ms[i].Data?
  {
    if n == 0 then [] else Joined(ms, n - 1) + ms[n - 1].packet.data
  }

  /** `ms` begins with `n` packets numbered 1, 2, 3 and so on that fit the buffer, all but the last full
      and acknowledged. */
  predicate InSequence(ms: seq<Incoming>, n: nat, size: nat, maxdata: nat)
  {
    && n <= |ms| && (forall i :: 0 <= i < n ==> ms[i].Data? && ms[i].packet.number == i + 1)
    && |Joined(ms, n)| <= size
    && forall i :: 0 <= i < n - 1 ==> ms[i].acked && |ms[i].packet.data| == maxdata
  }

  /** A read keeps the data of exactly such a beginning.  It succeeds when the last packet of that is
      acknowledged and not full; a packet with another number, or one that does not fit, adds nothing and
      ends it. */
  predicate Kept(ms: seq<Incoming>, n: nat, size: nat, maxdata: nat, data: seq<byte>, wkc: Wkc)
  {
    && InSequence(ms, n, size, maxdata) && data == Joined(ms, n)
    && if n > 0 && !ms[n - 1].acked then wkc == Nothing
       else if n > 0 && |ms[n - 1].packet.data| != maxdata then wkc == Good
       else if n == |ms| then wkc == Nothing
       else
         match ms[n]
         case Data(p, _) => wkc == BufTooSmall && (p.number != n + 1 || |data| + |p.data| > size)
         case Failure => wkc == FoeError
         case Foreign => wkc == PacketError
  }

  lemma {:induction false} ReadKeeps(ms: seq<Incoming>, k: nat, size: nat, maxdata: nat, r: Receiver) returns (n: nat)
    requires InSequence(ms, k, size, maxdata) && r.data == Joined(ms, k) && r.prevpacket == k && r.worktodo
    requires k > 0 ==> ms[k - 1].acked && |ms[k - 1].packet.data| == maxdata
    ensures var e := Read(r, size, maxdata, ms[k..]); Kept(ms, n, size, maxdata, e.data, e.wkc)
    decreases |ms| - k
  {
    n := k;
    if k < |ms| {
      assert ms[k..][0] == ms[k] && ms[k..][1..] == ms[k + 1..];
      var r' := Accept(r, size, maxdata, ms[k]);
      if ms[k].Data? && ms[k].packet.number == k + 1 && |r.data| + |ms[k].packet.data| <= size {
        n := k + 1;
        if r'.worktodo {
          n := ReadKeeps(ms, k + 1, size, maxdata, r');
        }
      }
    }
  }

  method FoeRead(buf: array<byte>, maxdata: nat, ms: seq<Incoming>) returns (dataread: nat, wkc: Wkc)
    modifies buf
    ensures var r := Read(READY, buf.Length, maxdata, ms);
            dataread == |r.data| <= buf.Length && buf[..dataread] == r.data && wkc == r.wkc
    ensures exists n :: Kept(ms, n, buf.Length, maxdata, buf[..dataread], wkc)
  {
    ghost var n := ReadKeeps(ms, 0, buf.Length, maxdata, READY);
    assert ms[0..] == ms;
    dataread, wkc := 0, Nothing;
    var prevpacket, worktodo, k := 0, true, 0;
    while worktodo
      invariant 0 <= k <= |ms| && dataread <= buf.Length
      invariant Read(READY, buf.Length, maxdata, ms)
                == Read(Receiver(buf[..dataread], prevpacket, worktodo, wkc), buf.Length, maxdata, ms[k..])
      decreases worktodo, |ms| - k
    {
      ghost var r := Receiver(buf[..dataread], prevpacket, worktodo, wkc);
      worktodo := false;
      if k == |ms| {
        wkc := Nothing;
      } else {
        match ms[k] {
          case Data(p, acked) =>
            prevpacket := prevpacket + 1;
            if p.number == prevpacket && dataread + |p.data| <= buf.Length {
              CopyTo(buf, dataread, p.data);
              dataread := dataread + |p.data|;
              worktodo := |p.data| == maxdata;
              wkc := Good;
              if !acked {
                worktodo, wkc := false, Nothing;
              }
            } else {
              wkc := BufTooSmall;
            }
          case Failure => wkc := FoeError;
          case Foreign => wkc := PacketError;
        }
        k := k + 1;
        assert Receiver(buf[..dataread], prevpacket, worktodo, wkc) == Accept(r, buf.Length, maxdata, ms[k - 1]);
      }
    }
  }

  // ----- A whole transfer -----

  /** The sender just after packet `no`, which starts at `pos`. */
  function Sent(file: seq<byte>, maxdata: nat, pos: nat, no: nat): (s: Sender)
    requires pos <= |file| && maxdata > 0
    ensures Within(s, file)
  {
    var n := Min(|file| - pos, maxdata);
    Sender(|file| - pos - n, pos + n, no, n, |file| - pos == maxdata)
  }

  /** Packets of a file from `pos` on, numbered from `no`: all full except the last, which is
      shorter, and empty if the file ends with a full packet. */
  function Packets(file: seq<byte>, maxdata: nat, pos: nat, no: nat): seq<Packet>
    requires pos <= |file| && maxdata > 0
    decreases |file| - pos
  {
    if |file| - pos < maxdata then [Packet(no, file[pos..])]
    else [Packet(no, file[pos..pos + maxdata])] + Packets(file, maxdata, pos + maxdata, no + 1)
  }

  /** How many full packets `n` bytes make: the quotient. */
  function FullPackets(n: nat, maxdata: nat): (k: nat)
    requires maxdata > 0
    decreases n
  {
    if n < maxdata then 0 else FullPackets(n - maxdata, maxdata) + 1
  }

  lemma {:induction false} FullPacketsIs(n: nat, maxdata: nat)
    requires maxdata > 0
    ensures FullPackets(n, maxdata) * maxdata <= n < FullPackets(n, maxdata) * maxdata + maxdata
    decreases n
  {
    if n >= maxdata {
      var k := FullPackets(n - maxdata, maxdata);
      FullPacketsIs(n - maxdata, maxdata);
      assert (k + 1) * maxdata == k * maxdata + maxdata;
    }
  }

  lemma {:induction false} FullPacketsNext(n: nat, maxdata: nat)
    requires maxdata > 0
    ensures FullPackets(n, maxdata) == if n < maxdata then 0 else FullPackets(n - maxdata, maxdata) + 1
  {
  }

  predicate IsPacket(p: Packet, number: int, maxdata: nat, last: bool)
  {
    p.number == number && if last then |p.data| < maxdata else |p.data| == maxdata
  }

  lemma {:induction false} PacketCount(file: seq<byte>, maxdata: nat, pos: nat, no: nat)
    requires pos <= |file| && maxdata > 0
    ensures var ps := Packets(file, maxdata, pos, no);
            && |ps| == FullPackets(|file| - pos, maxdata) + 1
            && forall i :: 0 <= i < |ps| ==> IsPacket(ps[i], no + i, maxdata, i == |ps| - 1)
    decreases |file| - pos
  {
    if |file| - pos >= maxdata {
      PacketCount(file, maxdata, pos + maxdata, no + 1);
      var ps, rest := Packets(file, maxdata, pos, no), Packets(file, maxdata, pos + maxdata, no + 1);
      assert forall i :: 1 <= i < |ps| ==> ps[i] == rest[i - 1];
    }
  }

  /** The packets as they come in, all acknowledged. */
  function Acked(ps: seq<Packet>): seq<Incoming>
  {
    if ps == [] then [] else [Data(ps[0], true)] + Acked(ps[1..])
  }

  /** The receiver's rule rebuilds the file from its packets and stops at exactly the last one,
      whatever comes after it. */
  lemma {:induction false} PacketsRebuild(file: seq<byte>, maxdata: nat, size: nat, pos: nat, no: nat, r: Receiver,
          more: seq<Incoming>)
    requires pos <= |file| <= size && maxdata > 0 && r.data == file[..pos] && r.prevpacket == no - 1 && r.worktodo
    ensures Read(r, size, maxdata, Acked(Packets(file, maxdata, pos, no)) + more)
            == Receiver(file, no + FullPackets(|file| - pos, maxdata), false, Good)
    decreases |file| - pos
  {
    var ps := Packets(file, maxdata, pos, no);
    var r' := Take(r, size, maxdata, ps[0]);
    assert (Acked(ps) + more)[0] == Data(ps[0], true) && (Acked(ps) + more)[1..] == Acked(ps[1..]) + more;
    if |file| - pos >= maxdata {
      assert r'.data == file[..pos + maxdata];
      PacketsRebuild(file, maxdata, size, pos + maxdata, no + 1, r', more);
    } else {
      assert r'.data == file;
    }
  }

  /** A busy reply brings back exactly the state it found, with the packet sent again, if and only
      if a packet has been sent and was not empty.  Otherwise the sender stops and reports success. */
  lemma {:induction false} BusyRestores(file: seq<byte>, maxdata: nat, pos: nat, no: nat)
    requires pos <= |file| && maxdata > 0 && no > 0
    ensures var s := Sent(file, maxdata, pos, no);
            && (pos < |file| ==> React(s, maxdata, Busy) == Reaction(s, true, Good))
            && (pos == |file| ==> React(s, maxdata, Busy) == Reaction(s.(sendpacket := no - 1), false, Good))
    ensures React(Fresh(file), maxdata, Busy) == Reaction(Fresh(file), false, Good)
  {
  }

  /** An acknowledgement brings the next packet, or the end after a packet that was not full. */
  lemma {:induction false} AckAdvances(file: seq<byte>, maxdata: nat, pos: nat, no: nat)
    requires pos <= |file| && maxdata > 0
    ensures React(Fresh(file), maxdata, Ack(0)) == Reaction(Sent(file, maxdata, 0, 1), true, Good)
    ensures var s := Sent(file, maxdata, pos, no);
            && Last(s, file) == Packets(file, maxdata, pos, no)[0]
            && (pos + maxdata <= |file| ==>
                  React(s, maxdata, Ack(no)) == Reaction(Sent(file, maxdata, pos + maxdata, no + 1), true, Good))
            && (pos + maxdata > |file| ==> React(s, maxdata, Ack(no)) == Reaction(s, false, Good))
  {
  }

  // ----- What a write does, reply by reply -----

  /** Where packet `no` of a file starts. */
  function StartOf(no: int, maxdata: nat): int
  {
    (no - 1) * maxdata
  }

  /** Packet `p` holds the piece of the file that its number names: full, or what is left. */
  predicate IsPiece(p: Packet, file: seq<byte>, maxdata: nat)
  {
    && p.number >= 1
    && var pos := StartOf(p.number, maxdata);
    && 0 <= pos <= |file| && p.data == file[pos..if |file| - pos < maxdata then |file| else pos + maxdata]
  }

  /** The number of the last packet before packet `i`, 0 before the first. */
  function NumberBefore(packets: seq<Packet>, i: nat): int
    requires i <= |packets|
  {
    if i == 0 then 0 else packets[i - 1].number
  }

  /** Reply `i` led to packet `i`: the next one when the packet before was acknowledged by its number and
      was full, or that packet again when the other side was busy and it was not empty. */
  predicate LedTo(turns: seq<Turn>, packets: seq<Packet>, maxdata: nat, i: nat)
    requires i < |turns| && i < |packets|
  {
    && turns[i].placed
    && match turns[i].reply
       case Ack(n) =>
         && n == NumberBefore(packets, i) && packets[i].number == n + 1
         && (i > 0 ==> |packets[i - 1].data| == maxdata)
       case Busy => i > 0 && packets[i] == packets[i - 1] && packets[i].data != []
       case _ => false
  }

  /** What a write puts out and returns: a packet for every reply until one ends it. */
  predicate Wrote(file: seq<byte>, maxdata: nat, turns: seq<Turn>, packets: seq<Packet>, wkc: Wkc)
  {
    var k := |packets|;
    && k <= |turns|
    && (forall i :: 0 <= i < k ==> LedTo(turns, packets, maxdata, i) && IsPiece(packets[i], file, maxdata))
    && if k == |turns| then wkc == Nothing
       else
         match turns[k].reply
         case Ack(n) =>
           if n != NumberBefore(packets, k) then wkc == PacketNumber
           else if k > 0 && |packets[k - 1].data| < maxdata then wkc == Good
           else wkc == Nothing && !turns[k].placed
         case Busy => if k == 0 || packets[k - 1].data == [] then wkc == Good else wkc == Nothing && !turns[k].placed
         case Error(code) => wkc == if code == 0x8001 then FileNotFound else FoeError
         case Other => wkc == PacketError
  }

  /** What a sender has when it has put out `packets` in answer to as many replies. */
  predicate SentSoFar(s: Sender, file: seq<byte>, maxdata: nat, turns: seq<Turn>, packets: seq<Packet>, pos: nat)
  {
    var k := |packets|;
    && maxdata > 0 && k <= |turns| && pos <= |file|
    && (forall i :: 0 <= i < k ==> LedTo(turns, packets, maxdata, i) && IsPiece(packets[i], file, maxdata))
    && if k == 0 then s == Fresh(file)
       else
         var no := packets[k - 1].number;
         no >= 1 && pos == StartOf(no, maxdata) && s == Sent(file, maxdata, pos, no)
  }

  lemma {:induction false} PieceSent(file: seq<byte>, maxdata: nat, pos: nat, no: nat, p: Packet)
    requires maxdata > 0 && no >= 1 && pos == StartOf(no, maxdata) && pos <= |file|
    requires p.number == no && IsPiece(p, file, maxdata)
    ensures p == Last(Sent(file, maxdata, pos, no), file)
  {
  }

  lemma {:induction false} NextPiece(file: seq<byte>, maxdata: nat, pos: nat, no: nat)
    requires maxdata > 0 && no >= 1 && pos == StartOf(no, maxdata) && pos <= |file|
    ensures IsPiece(Last(Sent(file, maxdata, pos, no), file), file, maxdata)
    ensures StartOf(no + 1, maxdata) == pos + maxdata && Last(Sent(file, maxdata, pos, no), file).number == no
    ensures |Last(Sent(file, maxdata, pos, no), file).data| == if |file| - pos < maxdata then |file| - pos else maxdata
  {
    assert no * maxdata == (no - 1) * maxdata + maxdata;
  }

  /** One more packet. */
  lemma {:induction false} PacketMore(file: seq<byte>, maxdata: nat, turns: seq<Turn>, packets: seq<Packet>, p: Packet)
    requires |packets| < |turns|
    requires forall i :: 0 <= i < |packets| ==> LedTo(turns, packets, maxdata, i) && IsPiece(packets[i], file, maxdata)
    requires LedTo(turns, packets + [p], maxdata, |packets|) && IsPiece(p, file, maxdata)
    ensures forall i :: 0 <= i <= |packets| ==>
              LedTo(turns, packets + [p], maxdata, i) && IsPiece((packets + [p])[i], file, maxdata)
  {
    hide IsPiece;
    var all := packets + [p];
    forall i | 0 <= i <= |packets| ensures LedTo(turns, all, maxdata, i) && IsPiece(all[i], file, maxdata) {
      if i < |packets| {
        assert LedTo(turns, packets, maxdata, i) && IsPiece(packets[i], file, maxdata);
      }
    }
  }

  /** A reply leads to a packet, or ends the write as it should. */
  predicate Does(x: Reaction, file: seq<byte>, maxdata: nat, turns: seq<Turn>, packets: seq<Packet>, next: nat)
    requires |packets| < |turns|
  {
    if x.sends && turns[|packets|].placed
    then Within(x.s, file) && SentSoFar(x.s, file, maxdata, turns, packets + [Last(x.s, file)], next)
    else (x.sends ==> Within(x.s, file)) && Wrote(file, maxdata, turns, packets, if x.sends then Nothing else x.wkc)
  }

  lemma {:induction false} FirstReply(file: seq<byte>, maxdata: nat, turns: seq<Turn>)
    requires maxdata > 0 && turns != []
    ensures Does(React(Fresh(file), maxdata, turns[0].reply), file, maxdata, turns, [], 0)
  {
    hide IsPiece, Last, Sent, StartOf, Advance, Rewind;
    AckAdvances(file, maxdata, 0, 1);
    BusyRestores(file, maxdata, 0, 1);
    if turns[0] == Turn(Ack(0), true) {
      var p := Last(Sent(file, maxdata, 0, 1), file);
      StartFirst(maxdata);
      NextPiece(file, maxdata, 0, 1);
      assert [] + [p] == [p];
      assert LedTo(turns, [p], maxdata, 0);
    }
  }

  lemma {:induction false} StartFirst(maxdata: nat)
    ensures StartOf(1, maxdata) == 0
  {
  }

  lemma {:induction false} LedOn(turns: seq<Turn>, packets: seq<Packet>, maxdata: nat, p: Packet)
    requires 0 < |packets| < |turns| && turns[|packets|].placed
    requires var last, reply := packets[|packets| - 1], turns[|packets|].reply;
             || (reply == Busy && p == last && p.data != [])
             || (reply == Ack(last.number) && p.number == last.number + 1 && |last.data| == maxdata)
    ensures LedTo(turns, packets + [p], maxdata, |packets|)
  {
  }

  lemma {:induction false} LaterAck(file: seq<byte>, maxdata: nat, turns: seq<Turn>, packets: seq<Packet>, pos: nat,
          no: nat)
    requires packets != [] && packets[|packets| - 1].number == no && maxdata > 0 && pos <= |file|
    requires SentSoFar(Sent(file, maxdata, pos, no), file, maxdata, turns, packets, pos) && |packets| < |turns|
    requires turns[|packets|].reply == Ack(no)
    ensures Does(React(Sent(file, maxdata, pos, no), maxdata, Ack(no)), file, maxdata, turns, packets, pos + maxdata)
  {
    hide IsPiece, Last, Sent, LedTo, React, StartOf;
    PieceSent(file, maxdata, pos, no, packets[|packets| - 1]);
    NextPiece(file, maxdata, pos, no);
    AckAdvances(file, maxdata, pos, no);
    if turns[|packets|].placed && pos + maxdata <= |file| {
      NextPiece(file, maxdata, pos + maxdata, no + 1);
      var p := Last(Sent(file, maxdata, pos + maxdata, no + 1), file);
      LedOn(turns, packets, maxdata, p);
      PacketMore(file, maxdata, turns, packets, p);
    }
  }

  lemma {:induction false} LaterBusy(file: seq<byte>, maxdata: nat, turns: seq<Turn>, packets: seq<Packet>, pos: nat,
          no: nat)
    requires packets != [] && packets[|packets| - 1].number == no && maxdata > 0 && pos <= |file|
    requires SentSoFar(Sent(file, maxdata, pos, no), file, maxdata, turns, packets, pos) && |packets| < |turns|
    requires turns[|packets|].reply == Busy
    ensures Does(React(Sent(file, maxdata, pos, no), maxdata, Busy), file, maxdata, turns, packets, pos)
  {
    hide IsPiece, Last, Sent, LedTo, React, StartOf;
    var last := packets[|packets| - 1];
    PieceSent(file, maxdata, pos, no, last);
    NextPiece(file, maxdata, pos, no);
    BusyRestores(file, maxdata, pos, no);
    if turns[|packets|].placed && pos < |file| {
      LedOn(turns, packets, maxdata, last);
      PacketMore(file, maxdata, turns, packets, last);
    }
  }

  lemma {:induction false} LaterReply(file: seq<byte>, maxdata: nat, turns: seq<Turn>, packets: seq<Packet>, pos: nat,
          no: nat)
    returns (next: nat)
    requires packets != [] && packets[|packets| - 1].number == no && maxdata > 0 && pos <= |file|
    requires SentSoFar(Sent(file, maxdata, pos, no), file, maxdata, turns, packets, pos) && |packets| < |turns|
    ensures var x := React(Sent(file, maxdata, pos, no), maxdata, turns[|packets|].reply);
            Does(x, file, maxdata, turns, packets, next)
  {
    hide IsPiece, LedTo, StartOf;
    var reply := turns[|packets|].reply;
    next := pos;
    if reply == Ack(no) {
      LaterAck(file, maxdata, turns, packets, pos, no);
      next := pos + maxdata;
    } else if reply == Busy {
      LaterBusy(file, maxdata, turns, packets, pos, no);
    }
  }

  lemma {:induction false} WriteFollows(s: Sender, file: seq<byte>, maxdata: nat, turns: seq<Turn>,
          packets: seq<Packet>, pos: nat)
    requires SentSoFar(s, file, maxdata, turns, packets, pos)
    ensures Within(s, file)
    ensures var w := Write(s, file, maxdata, turns[|packets|..]);
            Wrote(file, maxdata, turns, packets + w.packets, w.wkc)
    decreases |turns| - |packets|
  {
    hide IsPiece, React, Last, Sent, LedTo, StartOf;
    var k := |packets|;
    var w := Write(s, file, maxdata, turns[k..]);
    if k == |turns| {
      assert packets + w.packets == packets;
    } else {
      assert turns[k..][0] == turns[k] && turns[k..][1..] == turns[k + 1..];
      var x, next := React(s, maxdata, turns[k].reply), 0;
      if k == 0 {
        FirstReply(file, maxdata, turns);
        assert packets == [];
      } else {
        next := LaterReply(file, maxdata, turns, packets, pos, packets[k - 1].number);
      }
      hide Wrote, SentSoFar;
      if x.sends && turns[k].placed {
        var p := Last(x.s, file);
        WriteFollows(x.s, file, maxdata, turns, packets + [p], next);
        assert packets + ([p] + w.packets[1..]) == (packets + [p]) + w.packets[1..];
      } else {
        assert packets + w.packets == packets;
      }
    }
  }

  // ----- Both sides -----

  /** Where a transfer has got to: the two sides, and what the sender returned if it is over. */
  datatype Transfer = Going(s: Sender, r: Receiver) | Over(s: Sender, r: Receiver, wkc: Wkc)

  /** The receiver answers every packet, with "busy" where `busy` says so; a packet it is busy for
      it does not take. */
  function Exchange(s: Sender, r: Receiver, file: seq<byte>, maxdata: nat, size: nat, busy: seq<bool>): Transfer
    requires Within(s, file)
    decreases busy
  {
    if busy == [] then Going(s, r)
    else
      var p := Last(s, file);
      var x := React(s, maxdata, if busy[0] then Busy else Ack(p.number));
      var r' := if busy[0] then r else Take(r, size, maxdata, p);
      if x.sends then Exchange(x.s, r', file, maxdata, size, busy[1..]) else Over(x.s, r', x.wkc)
  }

  /** The receiver is never busy for an empty packet. */
  predicate BusyOnlyForData(file: seq<byte>, maxdata: nat, pos: nat, busy: seq<bool>)
    requires pos <= |file| && maxdata > 0
    decreases busy
  {
    busy == [] ||
    if busy[0] then pos < |file| && BusyOnlyForData(file, maxdata, pos, busy[1..])
    else pos + maxdata <= |file| ==> BusyOnlyForData(file, maxdata, pos + maxdata, busy[1..])
  }

  /** How many packets the receiver takes. */
  function Taken(busy: seq<bool>): nat
  {
    if busy == [] then 0 else (if busy[0] then 0 else 1) + Taken(busy[1..])
  }

  // ----- What the sender sends -----

  /** The other side's answers from packet `no` on: it acknowledges, or is busy where `busy` says so. */
  function Answers(no: nat, busy: seq<bool>): seq<Turn>
    decreases busy
  {
    if busy == [] then []
    else if busy[0] then [Turn(Busy, true)] + Answers(no, busy[1..])
    else [Turn(Ack(no), true)] + Answers(no + 1, busy[1..])
  }

  /** The packets as they are sent, one again for every time the other side is busy for it; but the
      sender stops when it is for an empty one. */
  function Repeated(ps: seq<Packet>, busy: seq<bool>): seq<Packet>
    decreases busy
  {
    if ps == [] then []
    else if busy == [] || (busy[0] && ps[0].data == []) then [ps[0]]
    else [ps[0]] + Repeated(if busy[0] then ps else ps[1..], busy[1..])
  }

  /** Each packet once when the other side is never busy. */
  lemma {:induction false} NotRepeated(ps: seq<Packet>, busy: seq<bool>)
    requires |busy| >= |ps| && true !in busy
    ensures Repeated(ps, busy) == ps
    decreases ps
  {
    if ps != [] {
      NotRepeated(ps[1..], busy[1..]);
    }
  }

  lemma {:induction false} PacketsUnfold(file: seq<byte>, maxdata: nat, pos: nat, no: nat)
    requires pos <= |file| && maxdata > 0
    ensures var ps := Packets(file, maxdata, pos, no);
            && ps != [] && (ps[0].data == [] <==> pos == |file|)
            && ps[1..] == if |file| - pos < maxdata then [] else Packets(file, maxdata, pos + maxdata, no + 1)
  {
  }

  /** After packet `no` a sender sends the packets of the rest of the file, repeated as asked for, and
      waits in vain exactly as long as the last one is due and there was no BUSY for an empty one. */
  lemma {:induction false} WriteGoesOn(file: seq<byte>, maxdata: nat, pos: nat, no: nat, busy: seq<bool>)
    requires pos <= |file| && maxdata > 0 && no > 0
    ensures var s := Sent(file, maxdata, pos, no);
            var w := Write(s, file, maxdata, Answers(no, busy));
            var full := FullPackets(|file| - pos, maxdata);
            && [Last(s, file)] + w.packets == Repeated(Packets(file, maxdata, pos, no), busy)
            && w.wkc == if BusyOnlyForData(file, maxdata, pos, busy) && Taken(busy) <= full then Nothing else Good
    decreases busy
  {
    hide Sent, React, Last, Packets, FullPackets;
    FullPacketsNext(|file| - pos, maxdata);
    PacketsUnfold(file, maxdata, pos, no);
    AckAdvances(file, maxdata, pos, no);
    if busy != [] {
      var turns := Answers(no, busy);
      if busy[0] {
        assert turns[0] == Turn(Busy, true) && turns[1..] == Answers(no, busy[1..]);
        BusyRestores(file, maxdata, pos, no);
        if pos < |file| {
          WriteGoesOn(file, maxdata, pos, no, busy[1..]);
        }
      } else {
        assert turns[0] == Turn(Ack(no), true) && turns[1..] == Answers(no + 1, busy[1..]);
        if pos + maxdata <= |file| {
          WriteGoesOn(file, maxdata, pos + maxdata, no + 1, busy[1..]);
        }
      }
    }
  }

  /** A whole write sends exactly the packets of the file, in order, each again as often as the
      other side is busy for it; it reports success when all of them are acknowledged, or as soon
      as the other side is busy for an empty one. */
  lemma {:induction false} WriteSends(file: seq<byte>, maxdata: nat, busy: seq<bool>)
    requires maxdata > 0
    ensures var w := Write(Fresh(file), file, maxdata, [Turn(Ack(0), true)] + Answers(1, busy));
            && w.packets == Repeated(Packets(file, maxdata, 0, 1), busy)
            && w.wkc == if BusyOnlyForData(file, maxdata, 0, busy) && Taken(busy) <= FullPackets(|file|, maxdata)
                        then Nothing else Good
  {
    hide Sent, React, Last, Packets, FullPackets, BusyOnlyForData, Answers;
    AckAdvances(file, maxdata, 0, 1);
    WriteGoesOn(file, maxdata, 0, 1, busy);
    var turns := [Turn(Ack(0), true)] + Answers(1, busy);
    assert turns[0] == Turn(Ack(0), true) && turns[1..] == Answers(1, busy);
  }

  /** A request that is answered with BUSY is reported as a success, with nothing sent at all. */
  lemma {:induction false} BusyAtOnce(file: seq<byte>, maxdata: nat, turns: seq<Turn>)
    requires turns != [] && turns[0].reply == Busy
    ensures Write(Fresh(file), file, maxdata, turns) == Written([], Fresh(file), Good)
  {
  }

  // ----- What the receiver gets -----

  /** What the receiver makes of the packet the sender sent last. */
  lemma {:induction false} TakesLast(file: seq<byte>, maxdata: nat, size: nat, pos: nat, no: nat, r: Receiver)
    requires pos <= |file| <= size && maxdata > 0
    requires r.data == file[..pos] && r.prevpacket == no - 1 && r.worktodo
    ensures var p := Last(Sent(file, maxdata, pos, no), file);
            var t := Take(r, size, maxdata, p);
            && p.number == no
            && (pos + maxdata <= |file| ==> t.data == file[..pos + maxdata] && t.prevpacket == no && t.worktodo)
            && (pos + maxdata > |file| ==> t == Receiver(file, no, false, Good))
  {
    assert pos + maxdata > |file| ==> file[..pos] + file[pos..] == file;
  }

  /** A transfer that is going on has delivered a prefix made of full packets; it ends with the
      whole file when the last packet is taken, or, when the receiver is busy for an empty one, with
      all bytes but a receiver that still waits. */
  lemma {:induction false} ExchangeDelivers(file: seq<byte>, maxdata: nat, size: nat, pos: nat, no: nat, r: Receiver,
          busy: seq<bool>)
    requires pos <= |file| <= size && maxdata > 0 && no > 0
    requires r.data == file[..pos] && r.prevpacket == no - 1 && r.worktodo
    ensures var t := Exchange(Sent(file, maxdata, pos, no), r, file, maxdata, size, busy);
            var full := FullPackets(|file| - pos, maxdata);
            if !BusyOnlyForData(file, maxdata, pos, busy)
            then t.Over? && t.wkc == Good && t.r.worktodo && t.r.data == file && t.r.prevpacket == no - 1 + full
            else if Taken(busy) <= full
            then t.Going? && t.r.worktodo && t.r.data <= file && t.r.prevpacket == no - 1 + Taken(busy)
            else t.Over? && t.wkc == Good && t.r == Receiver(file, no + full, false, Good)
    decreases busy
  {
    hide Sent, React, Take, Last, Packets, FullPackets;
    FullPacketsNext(|file| - pos, maxdata);
    TakesLast(file, maxdata, size, pos, no, r);
    if busy != [] {
      if busy[0] {
        BusyRestores(file, maxdata, pos, no);
        if pos < |file| {
          ExchangeDelivers(file, maxdata, size, pos, no, r, busy[1..]);
        } else {
          assert file[..pos] == file;
        }
      } else {
        AckAdvances(file, maxdata, pos, no);
        if pos + maxdata <= |file| {
          var taken := Take(r, size, maxdata, Last(Sent(file, maxdata, pos, no), file));
          ExchangeDelivers(file, maxdata, size, pos + maxdata, no + 1, taken, busy[1..]);
        }
      }
    }
  }

  /** The transfer as a whole, from the first acknowledgement on, over any run of acknowledgements
      and BUSY replies: the sender reports success while the receiver still waits exactly when the
      receiver is once busy for an empty packet; otherwise the receiver has the file exactly when
      the last packet is taken. */
  lemma {:induction false} TransferDelivers(file: seq<byte>, maxdata: nat, size: nat, busy: seq<bool>)
    requires |file| <= size && maxdata > 0
    ensures var first := React(Fresh(file), maxdata, Ack(0));
            && first.sends && Within(first.s, file)
            && var t := Exchange(first.s, READY, file, maxdata, size, busy);
            && (t.Over? && t.wkc == Good && t.r.worktodo <==> !BusyOnlyForData(file, maxdata, 0, busy))
            && (BusyOnlyForData(file, maxdata, 0, busy) ==>
                  if Taken(busy) <= FullPackets(|file|, maxdata) then t.Going? && t.r.worktodo && t.r.data <= file
                  else t == Over(t.s, Receiver(file, FullPackets(|file|, maxdata) + 1, false, Good), Good))
  {
    hide React, BusyOnlyForData, FullPackets, Sent;
    AckAdvances(file, maxdata, 0, 1);
    ExchangeDelivers(file, maxdata, size, 0, 1, READY, busy);
  }

  /** Only a file that ends with a full packet, or an empty one, has an empty packet to be busy for. */
  lemma {:induction false} NeverStalls(file: seq<byte>, maxdata: nat, pos: nat, busy: seq<bool>)
    requires maxdata > 0 && pos <= |file| && FullPackets(|file| - pos, maxdata) * maxdata != |file| - pos
    ensures BusyOnlyForData(file, maxdata, pos, busy)
    decreases busy
  {
    if busy != [] {
      if busy[0] {
        NeverStalls(file, maxdata, pos, busy[1..]);
      } else if pos + maxdata <= |file| {
        var k := FullPackets(|file| - pos - maxdata, maxdata);
        assert (k + 1) * maxdata == k * maxdata + maxdata;
        NeverStalls(file, maxdata, pos + maxdata, busy[1..]);
      }
    }
  }

  /** A file of one full packet, which is taken, and then BUSY for the empty one. */
  lemma {:induction false} StalledTransfer(file: seq<byte>, maxdata: nat)
    requires |file| == maxdata > 0
    ensures !BusyOnlyForData(file, maxdata, 0, [false, true])
    ensures var t := Exchange(Sent(file, maxdata, 0, 1), READY, file, maxdata, maxdata, [false, true]);
            t.Over? && t.wkc == Good && t.r == Receiver(file, 1, true, Good)
  {
    assert [false, true][1..] == [true];
    ExchangeDelivers(file, maxdata, maxdata, 0, 1, READY, [false, true]);
    TakesLast(file, maxdata, maxdata, 0, 1, READY);
  }
}
