/** Ethernet over EtherCAT: cutting a frame into mailbox fragments and putting it together again
    (ETG.1000.6, section 5.7).

    The two header words are packed from bit fields.  Fields are disjoint, so the bitwise "or" of
    the program is written as a sum, shifts as multiplication and division by powers of two, and
    masks as remainders.
  */
module Eoe {
  import opened Bytes

  // ----- Header fields -----

  function LastFragmentSet(x: nat): nat { x % 2 * 256 }
  function LastFragmentGet(w: nat): nat { w / 256 % 2 }
  function TimeAppendGet(w: nat): nat { w / 512 % 2 }
  function PortSet(x: nat): nat { x % 16 * 16 }
  function PortGet(w: nat): nat { w / 16 % 16 }

  function FragNoSet(x: nat): nat { x % 64 }
  function FragNoGet(w: nat): (x: nat) ensures x < 64 { w % 64 }
  function OffsetSet(x: nat): nat { x % 64 * 64 }
  function OffsetGet(w: nat): (x: nat) ensures x < 64 { w / 64 % 64 }
  function FrameNoSet(x: nat): nat { x % 16 * 4096 }
  function FrameNoGet(w: nat): nat { w / 4096 % 16 }

  /** The fields of a header word, and reading them gives back what was packed, cut to field width. */
  lemma {:induction false} PackedFields(fragno: nat, offset: nat, frameno: nat, port: nat, last: nat)
    ensures var w := FragNoSet(fragno) + OffsetSet(offset) + FrameNoSet(frameno);
            && w == fragno % 64 + 0x40 * (offset % 64) + 0x1000 * (frameno % 16)
            && FragNoGet(w) == fragno % 64 && OffsetGet(w) == offset % 64 && FrameNoGet(w) == frameno % 16
    ensures var v := LastFragmentSet(last) + PortSet(port);
            && v == 0x10 * (port % 16) + 0x100 * (last % 2)
            && LastFragmentGet(v) == last % 2 && TimeAppendGet(v) == 0 && PortGet(v) == port % 16
  {
    var a, b, c := fragno % 64, offset % 64, frameno % 16;
    var w := a + b * 64 + c * 4096;
    assert w / 64 == b + c * 64;
    assert w / 4096 == c;
    var v := last % 2 * 256 + port % 16 * 16;
    assert v / 256 == last % 2;
    assert v / 512 == 0;
    assert v / 16 == last % 2 * 16 + port % 16;
  }

  /** The fields of the first info word of any fragment. */
  lemma {:induction false} InfoBits(kind: nat, port: nat, last: nat, stamp: nat, more: nat)
    requires kind < 16 && port < 16 && last <= 1 && stamp <= 1
    ensures var v := kind + 0x10 * port + 0x100 * last + 0x200 * stamp + 0x400 * more;
            PortGet(v) == port && LastFragmentGet(v) == last && TimeAppendGet(v) == stamp
  {
    var c := stamp + 2 * more;
    var b := last + 2 * c;
    var v := kind + 0x10 * port + 0x100 * b;
    assert v / 0x10 % 16 == port;
    assert v / 0x100 == b && b % 2 == last && b / 2 == c && c % 2 == stamp;
    assert v / 0x200 == c;
  }

  /** The same words as the program builds and reads them, on 16 bits. */
  lemma {:induction false} PackedBits(fragno: bv16, offset: bv16, frameno: bv16)
    ensures var w := (fragno & 0x3F) | ((offset & 0x3F) << 6) | ((frameno & 0xF) << 12);
            && w == (fragno & 0x3F) + ((offset & 0x3F) << 6) + ((frameno & 0xF) << 12)
            && w & 0x3F == fragno & 0x3F && (w >> 6) & 0x3F == offset & 0x3F && (w >> 12) & 0xF == frameno & 0xF
  {
  }

  // ----- Fragments -----

  /** A mailbox: its type, the length in its header, the two EoE words and what follows them. */
  datatype Mbx = Mbx(eoe: bool, length: nat, info1: nat, info2: nat, data: seq<byte>)

  const HEADER := 4
  const WORD := 0x1_0000

  /** The payload length a mailbox announces, on 16 bits. */
  function DataSize(m: Mbx): nat
  {
    (m.length - HEADER) % WORD
  }

  const LONGEST := 63 * 32

  // ----- Sending -----

  /** Payload of the fragment at `offset`: everything left, or the largest multiple of 32 bytes. */
  function FragmentSize(size: nat, maxdata: nat, offset: nat): nat
    requires offset <= size
  {
    if size - offset > maxdata then maxdata / 32 * 32 else size - offset
  }

  function Fragment(p: seq<byte>, maxdata: nat, port: nat, frameno: nat, offset: nat, fragno: nat): Mbx
    requires offset <= |p|
  {
    var n := FragmentSize(|p|, maxdata, offset);
    Mbx(true, HEADER + n,
        LastFragmentSet(if offset + n == |p| then 1 else 0) + PortSet(port),
        FragNoSet(fragno) + OffsetSet(if fragno > 0 then offset / 32 else (|p| + 31) / 32) + FrameNoSet(frameno),
        p[offset..offset + n])
  }

  /** A mailbox that has room for a block of 32 bytes, or for everything that is left. */
  predicate Advances(size: nat, maxdata: nat, offset: nat)
  {
    maxdata >= 32 || size <= offset + maxdata
  }

  /** A mailbox without that room takes an empty fragment and gets no further, for ever. */
  lemma {:induction false} StuckExactly(size: nat, maxdata: nat, offset: nat)
    requires offset < size
    ensures FragmentSize(size, maxdata, offset) == 0 <==> !Advances(size, maxdata, offset)
  {
  }

  /** All fragments from `offset` on. */
  function Fragments(p: seq<byte>, maxdata: nat, port: nat, frameno: nat, offset: nat, fragno: nat): (fs: seq<Mbx>)
    requires offset <= |p| && Advances(|p|, maxdata, offset)
    ensures |fs| > 0
    decreases |p| - offset
  {
    var n := FragmentSize(|p|, maxdata, offset);
    [Fragment(p, maxdata, port, frameno, offset, fragno)]
    + if offset + n == |p| then [] else Fragments(p, maxdata, port, frameno, offset + n, fragno + 1)
  }

  /** Fills one mailbox with the fragment at `offset`; starting a frame counts it. */
  method BuildFragment(p: seq<byte>, maxdata: nat, port: nat, txframeno: nat, offset: nat, fragno: nat)
    returns (m: Mbx, size: nat, last: bool, frameno: nat)
    requires offset <= |p|
    ensures frameno == if fragno == 0 then (txframeno + 1) % 256 else txframeno
    ensures m == Fragment(p, maxdata, port, frameno, offset, fragno)
    ensures size == FragmentSize(|p|, maxdata, offset) && last == (offset + size == |p|)
  {
    size := |p| - offset;
    if size > maxdata {
      size := maxdata / 32 * 32;
    }
    last := size == |p| - offset;
    var info1 := PortSet(port);
    if last {
      info1 := LastFragmentSet(1) + PortSet(port);
    }
    var info2 := FragNoSet(fragno);
    frameno := txframeno;
    if fragno > 0 {
      info2 := info2 + OffsetSet(offset / 32);
    } else {
      info2 := info2 + OffsetSet((|p| + 31) / 32);
      frameno := (frameno + 1) % 256;
    }
    info2 := info2 + FrameNoSet(frameno);
    m := Mbx(true, HEADER + size, info1, info2, p[offset..offset + size]);
  }

  /** The program: fragments leave one by one, up to the `refused`-th if there are that many;
      `frames` is the counter of frames sent so far. */
  method Send(p: seq<byte>, mbxl: nat, port: nat, frames: nat, refused: nat)
    returns (sent: seq<Mbx>, wkc: int, txframeno: nat)
    requires frames < 256
    requires mbxl >= 10 ==> Advances(|p|, mbxl - 10, 0)
    ensures mbxl < 10 ==> wkc == -1 && sent == [] && txframeno == frames
    ensures mbxl >= 10 ==>
              var all := Fragments(p, mbxl - 10, port, txframeno, 0, 0);
              && txframeno == (frames + 1) % 256
              && (refused >= |all| ==> sent == all && wkc > 0)
              && (refused < |all| ==> sent == all[..refused + 1] && wkc == 0)
  {
    hide Fragment, Fragments, FragmentSize;
    sent, txframeno := [], frames;
    if mbxl < 10 {
      wkc := -1;
      return;
    }
    var maxdata: nat := mbxl - 10;
    var offset: nat, last := 0, false;
    ghost var frameno := (frames + 1) % 256;
    ghost var all := Fragments(p, maxdata, port, frameno, 0, 0);
    assert all[0..] == all;
    wkc := 1;
    while !last && wkc > 0
      invariant offset <= |p| && Advances(|p|, maxdata, offset)
      invariant txframeno == if sent == [] then frames else frameno
      invariant |sent| <= |all| && sent == all[..|sent|]
      invariant wkc > 0 ==> |sent| <= refused
      invariant !last && wkc > 0 ==> RestIs(all, |sent|, p, maxdata, port, frameno, offset)
      invariant wkc <= 0 ==> wkc == 0 && |sent| == refused + 1
      invariant last ==> |sent| == |all|
      decreases !last && wkc > 0, |p| - offset
    {
      NextFragment(all, |sent|, p, maxdata, port, frameno, offset);
      var m, size;
      m, size, last, txframeno := BuildFragment(p, maxdata, port, txframeno, offset, |sent|);
      wkc := if |sent| != refused then 1 else 0;
      sent := sent + [m];
      if !last && wkc > 0 {
        offset := offset + size;
      }
    }
  }

  /** From fragment `k` on, `all` is the fragments from `offset` on. */
  ghost predicate RestIs(all: seq<Mbx>, k: nat, p: seq<byte>, maxdata: nat, port: nat, frameno: nat, offset: nat)
    ensures RestIs(all, k, p, maxdata, port, frameno, offset) ==> k < |all| && offset <= |p|
  {
    && offset <= |p| && Advances(|p|, maxdata, offset) && k < |all|
    && all[k..] == Fragments(p, maxdata, port, frameno, offset, k)
  }

  lemma {:induction false} NextFragment(all: seq<Mbx>, k: nat, p: seq<byte>, maxdata: nat, port: nat, frameno: nat,
          offset: nat)
    requires RestIs(all, k, p, maxdata, port, frameno, offset)
    ensures all[k] == Fragment(p, maxdata, port, frameno, offset, k)
    ensures var n := FragmentSize(|p|, maxdata, offset);
            if offset + n == |p| then k + 1 == |all|
            else n > 0 && offset + n < |p| && Advances(|p|, maxdata, offset + n)
                 && RestIs(all, k + 1, p, maxdata, port, frameno, offset + n)
  {
    hide Fragment;
    var rest := FragmentsFirst(p, maxdata, port, frameno, offset, k);
    assert all[k] == all[k..][0] && all[k + 1..] == all[k..][1..];
  }

  // ----- Receiving -----

  /** What the receiver remembers between fragments. */
  datatype Rx = Rx(fragno: nat, size: nat, offset: nat, frameno: nat)

  const CLEAR := Rx(0, 0, 0, 0)

  /** Return values of the reader: 0, 1, and two errors. */
  datatype Outcome = More | Complete | Invalid | Unexpected

  /** Result of reading one fragment; `psize` is the size of the frame buffer, or of the frame
      once that is complete. */
  datatype Step = Step(out: Outcome, rx: Rx, psize: int, buf: seq<byte>)

  /** The receiver after a fragment with an unexpected number: back to the start, if it was not there. */
  function Resync(rx: Rx, fragno: nat): Rx
  {
    if rx.fragno != fragno && rx.fragno != 0 then CLEAR else rx
  }

  /** Whether a fragment continues what the receiver has. */
  predicate Continues(rx: Rx, m: Mbx)
  {
    rx.fragno == 0 || (rx.frameno == FrameNoGet(m.info2) && rx.offset == OffsetGet(m.info2) * 32)
  }

  function Start(rx: Rx, m: Mbx): Rx
  {
    if rx.fragno == 0 then rx.(size := OffsetGet(m.info2) * 32, offset := 0, frameno := FrameNoGet(m.info2)) else rx
  }

  predicate Fits(rx: Rx, m: Mbx, psize: int)
  {
    rx.offset + DataSize(m) <= rx.size && rx.offset + DataSize(m) <= psize
  }

  /** A mailbox that holds what it announces, or announces more than could ever be copied. */
  predicate Readable(rx: Rx, m: Mbx)
  {
    DataSize(m) <= |m.data| || (rx.size <= LONGEST < DataSize(m))
  }

  function Read(rx: Rx, m: Mbx, psize: int, buf: seq<byte>): (s: Step)
    requires psize <= |buf| && Readable(rx, m)
    ensures |s.buf| == |buf| && (s.rx.size <= LONGEST || s.rx.size == rx.size)
  {
    var fragno := FragNoGet(m.info2);
    var rx1 := Resync(rx, fragno);
    if !m.eoe then Step(Unexpected, rx, psize, buf)
    else if rx.fragno != fragno && fragno > 0 then Step(Invalid, rx1, psize, buf)
    else if !Continues(rx1, m) then Step(Invalid, CLEAR, psize, buf)
    else
      var rx2 := Start(rx1, m);
      var fits := Fits(rx2, m, psize);
      var buf' := if fits then Overwrite(buf, rx2.offset, m.data[..DataSize(m)]) else buf;
      var rx3 := if fits then rx2.(offset := rx2.offset + DataSize(m), fragno := (rx2.fragno + 1) % 256) else rx2;
      if LastFragmentGet(m.info1) == 1 then
        Step(Complete, CLEAR, if TimeAppendGet(m.info1) == 1 then (rx3.offset - 4) % WORD else rx3.offset, buf')
      else Step(More, rx3, psize, buf')
  }

  class Reader {
    var rxfragmentno: nat
    var rxframesize: nat
    var rxframeoffset: nat
    var rxframeno: nat

    ghost function State(): Rx
      reads this
    {
      Rx(rxfragmentno, rxframesize, rxframeoffset, rxframeno)
    }

    method Reset()
      modifies this
      ensures State() == CLEAR
    {
      rxfragmentno, rxframesize, rxframeoffset, rxframeno := 0, 0, 0, 0;
    }

    method ReadFragment(m: Mbx, psize: int, buf: array<byte>) returns (wkc: Outcome, size: int)
      requires psize <= buf.Length && Readable(State(), m)
      modifies this, buf
      ensures Step(wkc, State(), size, buf[..]) == Read(old(State()), m, psize, old(buf[..]))
      ensures wkc == Unexpected <==> !m.eoe
      ensures wkc == Invalid <==>
              (m.eoe && FragNoGet(m.info2) > 0
               && !(old(rxfragmentno) == FragNoGet(m.info2) && old(rxframeno) == FrameNoGet(m.info2)
                    && old(rxframeoffset) == 32 * OffsetGet(m.info2)))
      ensures wkc == Complete <==> m.eoe && wkc != Invalid && LastFragmentGet(m.info1) == 1
      ensures wkc == Unexpected ==> State() == old(State()) && size == psize && buf[..] == old(buf[..])
      ensures wkc == Invalid ==> rxfragmentno == 0 && size == psize && buf[..] == old(buf[..])
    {
      size := psize;
      if !m.eoe {
        wkc := Unexpected;
        return;
      }
      var fragno := FragNoGet(m.info2);
      if rxfragmentno != fragno {
        if rxfragmentno != 0 {
          Reset();
        }
        if fragno > 0 {
          wkc := Invalid;
          return;
        }
      }
      if rxfragmentno == 0 {
        rxframesize := OffsetGet(m.info2) * 32;
        rxframeoffset := 0;
        rxframeno := FrameNoGet(m.info2);
      } else if rxframeno != FrameNoGet(m.info2) || rxframeoffset != OffsetGet(m.info2) * 32 {
        Reset();
        wkc := Invalid;
        return;
      }
      wkc := More;
      var datasize := DataSize(m);
      if rxframeoffset + datasize <= rxframesize && rxframeoffset + datasize <= psize {
        CopyTo(buf, rxframeoffset, m.data[..datasize]);
        rxframeoffset := rxframeoffset + datasize;
        rxfragmentno := (rxfragmentno + 1) % 256;
      }
      if LastFragmentGet(m.info1) == 1 {
        size := if TimeAppendGet(m.info1) == 1 then (rxframeoffset - 4) % WORD else rxframeoffset;
        Reset();
        wkc := Complete;
      }
    }
  }

  // ----- A receiver that hands on every complete frame -----

  /** What became of each fragment, the frames handed on, and the receiver afterwards. */
  datatype Session = Session(outs: seq<Outcome>, frames: seq<seq<byte>>, rx: Rx, buf: seq<byte>)

  predicate AllReadable(rx: Rx, ms: seq<Mbx>)
  {
    forall i :: 0 <= i < |ms| ==> Readable(rx, ms[i])
  }

  function Handed(s: Step): seq<seq<byte>>
  {
    if s.out == Complete && 0 <= s.psize <= |s.buf| then [s.buf[..s.psize]] else []
  }

  /** Reads the mailboxes one after the other, each into a frame buffer of `cap` bytes. */
  function Listen(rx: Rx, ms: seq<Mbx>, cap: nat, buf: seq<byte>): (t: Session)
    requires cap <= |buf| && AllReadable(rx, ms)
    ensures |t.outs| == |ms| && |t.buf| == |buf|
    decreases ms
  {
    if ms == [] then Session([], [], rx, buf)
    else
      var s := Read(rx, ms[0], cap, buf);
      assert AllReadable(s.rx, ms[1..]);
      var t := Listen(s.rx, ms[1..], cap, s.buf);
      Session([s.out] + t.outs, Handed(s) + t.frames, t.rx, t.buf)
  }

  /** Where the receiver is after the fragments below `offset` of a frame. */
  predicate Midway(p: seq<byte>, frameno: nat, offset: nat, fragno: nat, rx: Rx, buf: seq<byte>)
  {
    && offset <= |p| <= LONGEST && |p| <= |buf| && offset % 32 == 0 && fragno <= offset / 32
    && (fragno > 0 ==> rx == Rx(fragno, (|p| + 31) / 32 * 32, offset, frameno % 16) && buf[..offset] == p[..offset])
    && (fragno == 0 ==> offset == 0)
  }

  /** Fragments are what they say they are. */
  lemma {:induction false} FragmentSays(p: seq<byte>, maxdata: nat, port: nat, frameno: nat, offset: nat, fragno: nat)
    requires offset <= |p| <= LONGEST && fragno <= offset / 32
    ensures var m := Fragment(p, maxdata, port, frameno, offset, fragno);
            var n := FragmentSize(|p|, maxdata, offset);
            && offset + n <= |p| && m.data == p[offset..offset + n] && DataSize(m) == n == |m.data| && m.eoe
            && (fragno < 64 ==> FragNoGet(m.info2) == fragno) && FrameNoGet(m.info2) == frameno % 16
            && PortGet(m.info1) == port % 16
            && TimeAppendGet(m.info1) == 0 && (LastFragmentGet(m.info1) == 1 <==> offset + n == |p|)
            && OffsetGet(m.info2) == (if fragno > 0 then offset / 32 else (|p| + 31) / 32)
  {
    hide LastFragmentSet, LastFragmentGet, TimeAppendGet, PortSet, FragNoSet, FragNoGet, OffsetSet, OffsetGet,
      FrameNoSet, FrameNoGet;
    var n := FragmentSize(|p|, maxdata, offset);
    var place := if fragno > 0 then offset / 32 else (|p| + 31) / 32;
    PackedFields(fragno, place, frameno, port, if offset + n == |p| then 1 else 0);
  }

  /** One fragment of a frame in its turn is accepted. */
  lemma {:induction false} FragmentAccepted(p: seq<byte>, maxdata: nat, port: nat, frameno: nat, offset: nat,
          fragno: nat, rx: Rx, cap: nat, buf: seq<byte>)
    requires Midway(p, frameno, offset, fragno, rx, buf) && |p| <= cap <= |buf| && Advances(|p|, maxdata, offset)
    requires fragno > 0 ==> offset < |p|
    ensures var m := Fragment(p, maxdata, port, frameno, offset, fragno);
            var n := FragmentSize(|p|, maxdata, offset);
            && Readable(rx, m) && m.data == p[offset..offset + n]
            && var s := Read(rx, m, cap, buf);
            && offset + n <= |p| && s.buf == Overwrite(buf, offset, p[offset..offset + n])
            && (offset + n == |p| ==> s.out == Complete && s.rx == CLEAR && s.psize == |p|)
            && (offset + n < |p| ==>
                  s.out == More && s.rx == Rx(fragno + 1, (|p| + 31) / 32 * 32, offset + n, frameno % 16))
  {
    hide FragNoGet, OffsetGet, FrameNoGet, LastFragmentGet, TimeAppendGet, DataSize, Fragment, Overwrite;
    FragmentSays(p, maxdata, port, frameno, offset, fragno);
    var m := Fragment(p, maxdata, port, frameno, offset, fragno);
    assert m.data[..DataSize(m)] == m.data;
  }

  /** A fragment that is not the last is some blocks of 32 bytes. */
  lemma {:induction false} WholeBlocks(size: nat, maxdata: nat, offset: nat, fragno: nat)
    requires offset <= size && Advances(size, maxdata, offset) && offset % 32 == 0 && fragno <= offset / 32
    requires offset + FragmentSize(size, maxdata, offset) < size
    ensures var n := FragmentSize(size, maxdata, offset);
            n > 0 && (offset + n) % 32 == 0 && fragno + 1 <= (offset + n) / 32
  {
    var k := maxdata / 32;
    assert k >= 1 && offset + 32 * k == 32 * (offset / 32 + k);
  }

  lemma {:induction false} OverwriteExtends(buf: seq<byte>, p: seq<byte>, offset: nat, end: nat)
    requires offset <= end <= |p| <= |buf| && buf[..offset] == p[..offset]
    ensures |Overwrite(buf, offset, p[offset..end])| == |buf|
            && Overwrite(buf, offset, p[offset..end])[..end] == p[..end]
  {
  }

  /** One fragment of a frame brings the receiver further, or to the end of the frame. */
  lemma {:induction false} OneFragment(p: seq<byte>, maxdata: nat, port: nat, frameno: nat, offset: nat, fragno: nat,
          rx: Rx, cap: nat, buf: seq<byte>)
    requires Midway(p, frameno, offset, fragno, rx, buf) && |p| <= cap <= |buf| && Advances(|p|, maxdata, offset)
    requires fragno > 0 ==> offset < |p|
    ensures var m := Fragment(p, maxdata, port, frameno, offset, fragno);
            var n := FragmentSize(|p|, maxdata, offset);
            && Readable(rx, m)
            && var s := Read(rx, m, cap, buf);
            && |s.buf| == |buf|
            && (offset + n == |p| ==> s.out == Complete && s.rx == CLEAR && Handed(s) == [p])
            && (offset + n < |p| ==> s.out == More && Handed(s) == [] && n > 0
                                     && Midway(p, frameno, offset + n, fragno + 1, s.rx, s.buf))
  {
    hide Read, Overwrite, Readable, Fragment, FragmentSize, Advances;
    FragmentAccepted(p, maxdata, port, frameno, offset, fragno, rx, cap, buf);
    var n := FragmentSize(|p|, maxdata, offset);
    OverwriteExtends(buf, p, offset, offset + n);
    if offset + n < |p| {
      WholeBlocks(|p|, maxdata, offset, fragno);
    }
    var s := Read(rx, Fragment(p, maxdata, port, frameno, offset, fragno), cap, buf);
    if offset + n == |p| {
      assert s.buf[..s.psize] == p;
    }
  }

  /** `n` times "more to come", then "complete". */
  function Arrival(n: nat): seq<Outcome>
  {
    if n == 0 then [Complete] else [More] + Arrival(n - 1)
  }

  lemma {:induction false} RestArrives(p: seq<byte>, maxdata: nat, port: nat, frameno: nat, offset: nat, fragno: nat,
          rx: Rx, cap: nat, buf: seq<byte>)
    requires Midway(p, frameno, offset, fragno, rx, buf) && |p| <= cap <= |buf| && Advances(|p|, maxdata, offset)
    requires fragno > 0 ==> offset < |p|
    ensures var ms := Fragments(p, maxdata, port, frameno, offset, fragno);
            && AllReadable(rx, ms)
            && var t := Listen(rx, ms, cap, buf);
            t.outs == Arrival(|ms| - 1) && t.frames == [p] && t.rx == CLEAR
    decreases |p| - offset
  {
    hide Read, Fragment, Fragments, Listen, AllReadable, Handed, Arrival, Readable;
    var n := FragmentSize(|p|, maxdata, offset);
    var m := Fragment(p, maxdata, port, frameno, offset, fragno);
    var rest := FragmentsFirst(p, maxdata, port, frameno, offset, fragno);
    OneFragment(p, maxdata, port, frameno, offset, fragno, rx, cap, buf);
    FragmentsReadable(p, maxdata, port, frameno, offset, fragno, rx);
    var s := Read(rx, m, cap, buf);
    ListenFirst(rx, m, rest, cap, buf);
    if offset + n < |p| {
      RestArrives(p, maxdata, port, frameno, offset + n, fragno + 1, s.rx, cap, s.buf);
      ArrivalLater(|rest|);
    } else {
      ListenNothing(s.rx, cap, s.buf);
      ArrivalLast();
    }
  }

  lemma {:induction false} ArrivalLater(n: nat)
    requires n > 0
    ensures [More] + Arrival(n - 1) == Arrival(n)
  {
  }

  lemma {:induction false} ArrivalLast()
    ensures Arrival(0) == [Complete]
  {
  }

  lemma {:induction false} FragmentsFirst(p: seq<byte>, maxdata: nat, port: nat, frameno: nat, offset: nat, fragno: nat)
    returns (rest: seq<Mbx>)
    requires offset <= |p| && Advances(|p|, maxdata, offset)
    ensures Fragments(p, maxdata, port, frameno, offset, fragno)
            == [Fragment(p, maxdata, port, frameno, offset, fragno)] + rest
    ensures var n := FragmentSize(|p|, maxdata, offset);
            && offset + n <= |p| && (offset + n == |p| ==> rest == [])
            && (offset + n < |p| ==> Advances(|p|, maxdata, offset + n) && |rest| > 0
                                     && rest == Fragments(p, maxdata, port, frameno, offset + n, fragno + 1))
  {
    var n := FragmentSize(|p|, maxdata, offset);
    rest := if offset + n == |p| then [] else Fragments(p, maxdata, port, frameno, offset + n, fragno + 1);
  }

  lemma {:induction false} ListenFirst(rx: Rx, m: Mbx, rest: seq<Mbx>, cap: nat, buf: seq<byte>)
    requires cap <= |buf| && AllReadable(rx, [m] + rest)
    ensures Readable(rx, m)
    ensures var s := Read(rx, m, cap, buf);
            && AllReadable(s.rx, rest)
            && var t := Listen(s.rx, rest, cap, s.buf);
            Listen(rx, [m] + rest, cap, buf) == Session([s.out] + t.outs, Handed(s) + t.frames, t.rx, t.buf)
  {
    var ms := [m] + rest;
    assert ms[0] == m && ms[1..] == rest;
    var s := Read(rx, m, cap, buf);
    forall i | 0 <= i < |rest| ensures Readable(s.rx, rest[i]) {
      assert Readable(rx, ms[i + 1]);
    }
  }

  lemma {:induction false} ListenNothing(rx: Rx, cap: nat, buf: seq<byte>)
    requires cap <= |buf|
    ensures Listen(rx, [], cap, buf) == Session([], [], rx, buf)
  {
  }

  lemma {:induction false} FragmentsReadable(p: seq<byte>, maxdata: nat, port: nat, frameno: nat, offset: nat,
          fragno: nat, rx: Rx)
    requires offset <= |p| < WORD && Advances(|p|, maxdata, offset)
    ensures AllReadable(rx, Fragments(p, maxdata, port, frameno, offset, fragno))
    ensures forall i :: 0 <= i < |Fragments(p, maxdata, port, frameno, offset, fragno)| ==>
              TimeAppendGet(Fragments(p, maxdata, port, frameno, offset, fragno)[i].info1) == 0
    decreases |p| - offset
  {
    var n := FragmentSize(|p|, maxdata, offset);
    PackedFields(0, 0, 0, port, if offset + n == |p| then 1 else 0);
    if offset + n < |p| {
      FragmentsReadable(p, maxdata, port, frameno, offset + n, fragno + 1, rx);
    }
  }

  /** No frame longer than the 6-bit block count can announce is ever handed on. */
  lemma {:induction false} NothingLonger(rx: Rx, ms: seq<Mbx>, cap: nat, buf: seq<byte>)
    requires cap <= |buf| && AllReadable(rx, ms) && (rx.fragno > 0 ==> rx.offset <= LONGEST && rx.size <= LONGEST)
    requires forall i :: 0 <= i < |ms| ==> TimeAppendGet(ms[i].info1) == 0
    ensures forall f :: f in Listen(rx, ms, cap, buf).frames ==> |f| <= LONGEST
    decreases ms
  {
    if ms != [] {
      var s := Read(rx, ms[0], cap, buf);
      assert AllReadable(s.rx, ms[1..]);
      assert s.rx.fragno > 0 ==> s.rx.offset <= LONGEST && s.rx.size <= LONGEST;
      assert forall f :: f in Handed(s) ==> |f| <= LONGEST;
      NothingLonger(s.rx, ms[1..], cap, s.buf);
    }
  }

  /** Reassembly undoes fragmentation from any state the receiver was left in, exactly when the
      frame has at most 63 blocks of 32 bytes. */
  lemma {:induction false} FrameArrives(p: seq<byte>, maxdata: nat, port: nat, frameno: nat, rx: Rx, cap: nat,
          buf: seq<byte>)
    requires |p| <= cap <= |buf| && |p| < WORD && Advances(|p|, maxdata, 0)
    requires rx.fragno > 0 ==> rx.offset <= LONGEST && rx.size <= LONGEST
    ensures var ms := Fragments(p, maxdata, port, frameno, 0, 0);
            && AllReadable(rx, ms)
            && (|p| <= LONGEST ==>
                  Listen(rx, ms, cap, buf).outs == Arrival(|ms| - 1) && Listen(rx, ms, cap, buf).rx == CLEAR)
            && (Listen(rx, ms, cap, buf).frames == [p] <==> |p| <= LONGEST)
  {
    FragmentsReadable(p, maxdata, port, frameno, 0, 0, rx);
    if |p| <= LONGEST {
      RestArrives(p, maxdata, port, frameno, 0, 0, rx, cap, buf);
    } else {
      var ms := Fragments(p, maxdata, port, frameno, 0, 0);
      NothingLonger(rx, ms, cap, buf);
      var frames := Listen(rx, ms, cap, buf).frames;
      assert |frames| > 0 ==> frames[0] in frames;
    }
  }

  // ----- A stream of frames -----

  lemma {:induction false} ListenJoins(rx: Rx, a: seq<Mbx>, b: seq<Mbx>, cap: nat, buf: seq<byte>)
    requires cap <= |buf| && AllReadable(rx, a) && AllReadable(Listen(rx, a, cap, buf).rx, b) && AllReadable(rx, a + b)
    ensures var t := Listen(rx, a, cap, buf);
            var u := Listen(t.rx, b, cap, t.buf);
            Listen(rx, a + b, cap, buf) == Session(t.outs + u.outs, t.frames + u.frames, u.rx, u.buf)
    decreases a
  {
    hide Read, Handed, Listen, AllReadable, Readable;
    if a == [] {
      assert a + b == b;
      ListenNothing(rx, cap, buf);
    } else {
      var m, rest := a[0], a[1..];
      assert a == [m] + rest && a + b == [m] + (rest + b);
      ListenFirst(rx, m, rest, cap, buf);
      ListenFirst(rx, m, rest + b, cap, buf);
      ListenJoins(Read(rx, m, cap, buf).rx, rest, b, cap, Read(rx, m, cap, buf).buf);
    }
  }

  /** The fragments of several frames, numbered on from `frameno`. */
  function Stream(ps: seq<seq<byte>>, maxdata: nat, port: nat, frameno: nat): seq<Mbx>
    requires forall i :: 0 <= i < |ps| ==> Advances(|ps[i]|, maxdata, 0)
  {
    if ps == [] then []
    else Fragments(ps[0], maxdata, port, frameno, 0, 0) + Stream(ps[1..], maxdata, port, frameno + 1)
  }

  predicate Sendable(ps: seq<seq<byte>>, maxdata: nat, cap: nat)
  {
    forall i :: 0 <= i < |ps| ==> |ps[i]| <= LONGEST && |ps[i]| <= cap && Advances(|ps[i]|, maxdata, 0)
  }

  /** A stream of frames is handed on frame by frame, after whatever the receiver had before. */
  lemma {:induction false} StreamArrives(ps: seq<seq<byte>>, maxdata: nat, port: nat, frameno: nat, rx: Rx, cap: nat,
          buf: seq<byte>)
    requires Sendable(ps, maxdata, cap) && cap <= |buf|
    requires rx.fragno > 0 ==> rx.offset <= LONGEST && rx.size <= LONGEST
    ensures var ms := Stream(ps, maxdata, port, frameno);
            AllReadable(rx, ms) && Listen(rx, ms, cap, buf).frames == ps
    decreases ps
  {
    if ps != [] {
      var first := Fragments(ps[0], maxdata, port, frameno, 0, 0);
      var rest := Stream(ps[1..], maxdata, port, frameno + 1);
      FrameArrives(ps[0], maxdata, port, frameno, rx, cap, buf);
      StreamReadable(ps[1..], maxdata, port, frameno + 1, rx);
      StreamReadable(ps[1..], maxdata, port, frameno + 1, CLEAR);
      hide Fragments, Listen;
      var t := Listen(rx, first, cap, buf);
      StreamArrives(ps[1..], maxdata, port, frameno + 1, CLEAR, cap, t.buf);
      ListenJoins(rx, first, rest, cap, buf);
      assert [ps[0]] + ps[1..] == ps;
    }
  }

  lemma {:induction false} StreamReadable(ps: seq<seq<byte>>, maxdata: nat, port: nat, frameno: nat, rx: Rx)
    requires forall i :: 0 <= i < |ps| ==> |ps[i]| <= LONGEST && Advances(|ps[i]|, maxdata, 0)
    ensures AllReadable(rx, Stream(ps, maxdata, port, frameno))
    decreases ps
  {
    if ps != [] {
      FragmentsReadable(ps[0], maxdata, port, frameno, 0, 0, rx);
      StreamReadable(ps[1..], maxdata, port, frameno + 1, rx);
    }
  }

  // ----- What the receiver has, whatever it was sent -----

  function Payload(m: Mbx): seq<byte>
    requires DataSize(m) <= |m.data|
  {
    m.data[..DataSize(m)]
  }

  function Payloads(acc: seq<Mbx>): seq<byte>
    requires forall i :: 0 <= i < |acc| ==> DataSize(acc[i]) <= |acc[i].data|
  {
    if acc == [] then [] else Payloads(acc[..|acc| - 1]) + Payload(acc[|acc| - 1])
  }

  /** The receiver holds exactly the payloads of the fragments `acc`, numbered from 0 on, all of
      one frame, each announced for the place it was put in. */
  predicate Built(rx: Rx, cap: nat, buf: seq<byte>, acc: seq<Mbx>)
  {
    && |acc| == rx.fragno <= 64
    && (forall i :: 0 <= i < |acc| ==> DataSize(acc[i]) <= |acc[i].data|)
    && rx.offset <= |buf| && rx.offset <= cap && buf[..rx.offset] == Payloads(acc)
    && (rx.fragno > 0 ==> rx.offset <= rx.size <= LONGEST)
    && (forall i :: 0 <= i < |acc| ==> Placed(rx, acc, i))
  }

  predicate Placed(rx: Rx, acc: seq<Mbx>, i: nat)
    requires i < |acc| && forall j :: 0 <= j < |acc| ==> DataSize(acc[j]) <= |acc[j].data|
  {
    && acc[i].eoe && FragNoGet(acc[i].info2) == i && FrameNoGet(acc[i].info2) == rx.frameno
    && OffsetGet(acc[i].info2) * 32 == if i == 0 then rx.size else |Payloads(acc[..i])|
  }

  /** `acc` are mailboxes of `ms`, taken in order. */
  predicate InOrder(acc: seq<Mbx>, ms: seq<Mbx>, at: seq<nat>)
  {
    && |at| == |acc| && (forall i :: 0 <= i < |at| ==> at[i] < |ms| && acc[i] == ms[at[i]])
    && (forall i, j :: 0 <= i < j < |at| ==> at[i] < at[j])
  }

  /** The receiver after a fragment that fits. */
  function Further(rx: Rx, m: Mbx): Rx
  {
    rx.(offset := rx.offset + DataSize(m), fragno := rx.fragno + 1)
  }

  /** A fragment that is copied extends what the receiver has. */
  lemma {:induction false} CopyBuilds(rx: Rx, m: Mbx, cap: nat, buf: seq<byte>, acc: seq<Mbx>)
    requires cap <= |buf| && DataSize(m) <= |m.data| && Built(rx, cap, buf, acc) && rx.size <= LONGEST
    requires m.eoe && rx.fragno == FragNoGet(m.info2) && rx.frameno == FrameNoGet(m.info2) && Fits(rx, m, cap)
    requires OffsetGet(m.info2) * 32 == if rx.fragno == 0 then rx.size else rx.offset
    requires rx.fragno == 0 ==> rx.offset == 0
    ensures Built(Further(rx, m), cap, Overwrite(buf, rx.offset, Payload(m)), acc + [m])
  {
    var acc' := acc + [m];
    var rx' := Further(rx, m);
    assert acc'[..|acc|] == acc;
    forall i | 0 <= i < |acc'| ensures Placed(rx', acc', i) {
      if i < |acc| {
        assert Placed(rx, acc, i) && acc'[..i] == acc[..i];
      }
    }
  }

  lemma {:induction false} NothingBuilt(rx: Rx, cap: nat, buf: seq<byte>)
    requires rx.fragno == 0 && rx.offset == 0
    ensures Built(rx, cap, buf, [])
  {
  }

  /** What the receiver has after one more fragment: the same, nothing, this one, or one more. */
  lemma {:induction false} ReadBuilds(rx: Rx, m: Mbx, cap: nat, buf: seq<byte>, acc: seq<Mbx>) returns (acc': seq<Mbx>)
    requires cap <= |buf| && Readable(rx, m) && Built(rx, cap, buf, acc) && (rx.fragno == 0 ==> rx.offset == 0)
    ensures acc' == acc || acc' == [] || acc' == [m] || acc' == acc + [m]
    ensures var s := Read(rx, m, cap, buf); Built(s.rx, cap, s.buf, acc') && (s.rx.fragno == 0 ==> s.rx.offset == 0)
  {
    hide Built, FragNoGet, FrameNoGet, LastFragmentGet, TimeAppendGet, OffsetGet, Overwrite, DataSize;
    var s := Read(rx, m, cap, buf);
    var rx1 := Resync(rx, FragNoGet(m.info2));
    BuiltBounds(rx, cap, buf, acc);
    NothingBuilt(CLEAR, cap, s.buf);
    if !m.eoe {
      acc' := acc;
    } else if rx.fragno != FragNoGet(m.info2) && FragNoGet(m.info2) > 0 {
      acc' := if rx.fragno != 0 then [] else acc;
    } else if !Continues(rx1, m) || LastFragmentGet(m.info1) == 1 {
      acc' := [];
    } else {
      var rx2 := Start(rx1, m);
      NothingBuilt(Start(CLEAR, m), cap, buf);
      acc' := if rx1.fragno == 0 then [] else acc;
      if Fits(rx2, m, cap) {
        CopyBuilds(rx2, m, cap, buf, acc');
        acc' := acc' + [m];
      }
    }
  }

  /** The frame handed on with a last fragment: what was received of the frame before it, and the
      fragment itself exactly if it fits; if it does not, the frame is cut short.  A time stamp of
      four bytes at the end is taken off; of less than that, the size wraps. */
  lemma {:induction false} LastHands(rx: Rx, m: Mbx, cap: nat, buf: seq<byte>, acc: seq<Mbx>)
    returns (before: seq<Mbx>, all: seq<Mbx>)
    requires cap <= |buf| && Readable(rx, m) && Built(rx, cap, buf, acc) && (rx.fragno == 0 ==> rx.offset == 0)
    requires Read(rx, m, cap, buf).out == Complete
    ensures before == acc || before == []
    ensures var s, rx2 := Read(rx, m, cap, buf), Start(Resync(rx, FragNoGet(m.info2)), m);
            && all == (if Fits(rx2, m, cap) then before + [m] else before)
            && Built(if Fits(rx2, m, cap) then Further(rx2, m) else rx2, cap, s.buf, all)
            && (TimeAppendGet(m.info1) != 1 ==> Handed(s) == [Payloads(all)])
            && (TimeAppendGet(m.info1) == 1 && |Payloads(all)| >= 4 ==>
                  Handed(s) == [Payloads(all)[..|Payloads(all)| - 4]])
            && (TimeAppendGet(m.info1) == 1 && |Payloads(all)| < 4 ==>
                  forall f :: f in Handed(s) ==> |f| == |Payloads(all)| + WORD - 4)
  {
    hide Built, FragNoGet, FrameNoGet, LastFragmentGet, TimeAppendGet, OffsetGet, Overwrite, DataSize, Payloads;
    var s := Read(rx, m, cap, buf);
    var rx1 := Resync(rx, FragNoGet(m.info2));
    var rx2 := Start(rx1, m);
    BuiltBounds(rx, cap, buf, acc);
    before := acc;
    if rx1.fragno == 0 {
      NothingBuilt(rx2, cap, buf);
      before := [];
    }
    all := before;
    if Fits(rx2, m, cap) {
      CopyBuilds(rx2, m, cap, buf, before);
      all := before + [m];
      BuiltHolds(Further(rx2, m), cap, s.buf, all);
    } else {
      BuiltHolds(rx2, cap, s.buf, all);
    }
  }

  lemma {:induction false} BuiltHolds(rx: Rx, cap: nat, buf: seq<byte>, acc: seq<Mbx>)
    requires Built(rx, cap, buf, acc)
    ensures forall i :: 0 <= i < |acc| ==> DataSize(acc[i]) <= |acc[i].data|
    ensures rx.offset <= |buf| && buf[..rx.offset] == Payloads(acc) && |Payloads(acc)| == rx.offset
    ensures rx.fragno > 0 ==> rx.offset <= LONGEST
    ensures rx.offset >= 4 ==> buf[..rx.offset - 4] == Payloads(acc)[..rx.offset - 4]
  {
    assert rx.offset >= 4 ==> buf[..rx.offset][..rx.offset - 4] == buf[..rx.offset - 4];
  }

  lemma {:induction false} BuiltBounds(rx: Rx, cap: nat, buf: seq<byte>, acc: seq<Mbx>)
    requires Built(rx, cap, buf, acc)
    ensures rx.fragno <= 64 && (rx.fragno > 0 ==> rx.size <= LONGEST)
  {
  }

  lemma {:induction false} OrderGrows(acc: seq<Mbx>, ms: seq<Mbx>, done: nat, at: seq<nat>, next: seq<Mbx>)
    returns (nextAt: seq<nat>)
    requires done < |ms| && InOrder(acc, ms[..done], at)
    requires next == acc || next == [] || next == [ms[done]] || next == acc + [ms[done]]
    ensures InOrder(next, ms[..done + 1], nextAt)
  {
    nextAt := if next == acc then at else if next == [] then [] else if next == [ms[done]] then [done] else at + [done];
  }

  lemma {:induction false} ListenBuilds(rx: Rx, ms: seq<Mbx>, done: nat, cap: nat, buf: seq<byte>, acc: seq<Mbx>,
          at: seq<nat>)
    returns (acc': seq<Mbx>, at': seq<nat>)
    requires done <= |ms| && cap <= |buf| && AllReadable(rx, ms[done..])
    requires Built(rx, cap, buf, acc) && (rx.fragno == 0 ==> rx.offset == 0)
    requires InOrder(acc, ms[..done], at)
    ensures var t := Listen(rx, ms[done..], cap, buf);
            Built(t.rx, cap, t.buf, acc') && InOrder(acc', ms, at')
    decreases |ms| - done
  {
    hide Read, Handed, Built, Readable;
    if done == |ms| {
      assert ms[..done] == ms;
      acc', at' := acc, at;
    } else {
      var m := ms[done];
      assert ms[done..] == [m] + ms[done + 1..];
      ListenFirst(rx, m, ms[done + 1..], cap, buf);
      var s := Read(rx, m, cap, buf);
      var next := ReadBuilds(rx, m, cap, buf, acc);
      var nextAt := OrderGrows(acc, ms, done, at, next);
      hide Listen, AllReadable, InOrder;
      acc', at' := ListenBuilds(s.rx, ms, done + 1, cap, s.buf, next, nextAt);
    }
  }

  /** One of the mailboxes says that it has a time stamp. */
  predicate Stamped(ms: seq<Mbx>)
  {
    exists i :: 0 <= i < |ms| && TimeAppendGet(ms[i].info1) == 1
  }

  /** A frame made of fragments 0, 1, 2, ... of one frame, received in that order; the last four bytes
      may be a time stamp that was taken off. */
  ghost predicate OfOneFrame(f: seq<byte>, ms: seq<Mbx>, cap: nat)
  {
    exists rx: Rx, buf: seq<byte>, acc: seq<Mbx>, at: seq<nat> :: Collected(f, ms, cap, rx, buf, acc, at)
  }

  predicate Collected(f: seq<byte>, ms: seq<Mbx>, cap: nat, rx: Rx, buf: seq<byte>, acc: seq<Mbx>, at: seq<nat>)
  {
    && Built(rx, cap, buf, acc) && InOrder(acc, ms, at)
    && (f == Payloads(acc) || (Stamped(ms) && |f| + 4 == |Payloads(acc)| && f == Payloads(acc)[..|f|]))
  }

  lemma {:induction false} NothingHanded(rx: Rx, m: Mbx, cap: nat, buf: seq<byte>)
    requires cap <= |buf| && Readable(rx, m)
    ensures Read(rx, m, cap, buf).out != Complete ==> Handed(Read(rx, m, cap, buf)) == []
  {
  }

  lemma {:induction false} OrderLonger(acc: seq<Mbx>, ms: seq<Mbx>, done: nat, at: seq<nat>)
    requires done <= |ms| && InOrder(acc, ms[..done], at)
    ensures InOrder(acc, ms, at)
  {
  }

  /** The frame handed on with mailbox `done`. */
  lemma {:induction false} FrameHanded(rx: Rx, ms: seq<Mbx>, done: nat, cap: nat, buf: seq<byte>, acc: seq<Mbx>,
          at: seq<nat>)
    requires done < |ms| && cap <= |buf| && Readable(rx, ms[done])
    requires Built(rx, cap, buf, acc) && (rx.fragno == 0 ==> rx.offset == 0) && InOrder(acc, ms[..done], at)
    ensures forall f :: f in Handed(Read(rx, ms[done], cap, buf)) ==>
              OfOneFrame(f, ms, cap) || (Stamped(ms) && |f| >= WORD - 4)
  {
    hide Read, Handed, Built, Readable, TimeAppendGet, Fits, Start, Resync, Further, FragNoGet, Payloads;
    var m := ms[done];
    var s := Read(rx, m, cap, buf);
    NothingHanded(rx, m, cap, buf);
    if s.out == Complete {
      var before, all := LastHands(rx, m, cap, buf, acc);
      var allAt := OrderGrows(acc, ms, done, at, all);
      OrderLonger(all, ms, done + 1, allAt);
      var rx2 := Start(Resync(rx, FragNoGet(m.info2)), m);
      var rx3 := if Fits(rx2, m, cap) then Further(rx2, m) else rx2;
      BuiltHolds(rx3, cap, s.buf, all);
      forall f | f in Handed(s) ensures OfOneFrame(f, ms, cap) || (Stamped(ms) && |f| >= WORD - 4) {
        if TimeAppendGet(m.info1) != 1 || |Payloads(all)| >= 4 {
          assert Collected(f, ms, cap, rx3, s.buf, all, allAt);
        }
      }
    }
  }

  lemma {:induction false} FramesFrom(rx: Rx, ms: seq<Mbx>, done: nat, cap: nat, buf: seq<byte>, acc: seq<Mbx>,
          at: seq<nat>)
    requires done <= |ms| && cap <= |buf| && AllReadable(rx, ms[done..])
    requires Built(rx, cap, buf, acc) && (rx.fragno == 0 ==> rx.offset == 0) && InOrder(acc, ms[..done], at)
    ensures forall f :: f in Listen(rx, ms[done..], cap, buf).frames ==>
              OfOneFrame(f, ms, cap) || (Stamped(ms) && |f| >= WORD - 4)
    decreases |ms| - done
  {
    hide Read, Handed, Built, Readable, OfOneFrame, Stamped;
    if done == |ms| {
      assert ms[done..] == [];
    } else {
      var m := ms[done];
      assert ms[done..] == [m] + ms[done + 1..];
      ListenFirst(rx, m, ms[done + 1..], cap, buf);
      var s := Read(rx, m, cap, buf);
      var next := ReadBuilds(rx, m, cap, buf, acc);
      var nextAt := OrderGrows(acc, ms, done, at, next);
      FramesFrom(s.rx, ms, done + 1, cap, s.buf, next, nextAt);
      FrameHanded(rx, ms, done, cap, buf, acc, at);
    }
  }

  /** Whatever fragments arrive, every frame handed on is made of fragments 0, 1, 2, ... of one frame,
      received in that order, each announced for the place it is in, less a time stamp; or a stamp of
      four bytes was taken off a frame of less, and the size has wrapped. */
  lemma {:induction false} HandedInOrder(ms: seq<Mbx>, cap: nat, buf: seq<byte>)
    requires cap <= |buf| && AllReadable(CLEAR, ms)
    ensures forall f :: f in Listen(CLEAR, ms, cap, buf).frames ==>
              OfOneFrame(f, ms, cap) || (Stamped(ms) && |f| >= WORD - 4)
  {
    NothingBuilt(CLEAR, cap, buf);
    assert ms[0..] == ms;
    FramesFrom(CLEAR, ms, 0, cap, buf, [], []);
  }

  /** Whatever fragments arrive, the accepted part of the frame buffer is the payloads of
      fragments 0, 1, 2, ... of one frame, received in that order, each announced for the place it
      is in; and it is neither longer than the announced frame nor than the buffer. */
  lemma {:induction false} AcceptedPrefix(ms: seq<Mbx>, cap: nat, buf: seq<byte>)
    requires cap <= |buf| && AllReadable(CLEAR, ms)
    ensures var t := Listen(CLEAR, ms, cap, buf);
            exists acc, at :: Built(t.rx, cap, t.buf, acc) && InOrder(acc, ms, at)
  {
    NothingBuilt(CLEAR, cap, buf);
    assert ms[0..] == ms;
    var acc, at := ListenBuilds(CLEAR, ms, 0, cap, buf, [], []);
  }
}
