/** CoE service data: writing a parameter as one expedited, one normal, or one normal and several
    segment frames, and the rules by which such frames are read (ETG.1000.6, section 5.6).

    Command bytes are packed from disjoint bit fields; "or" of fields is written as a sum, masks
    and shifts as remainders and divisions by powers of two.
  */
module Sdo {

  import opened Bytes

  /** A mailbox: the length in its header, the SDO command, and everything after the command. */
  datatype Frame = Frame(length: nat, command: nat, body: seq<byte>)

  const WORD := 0x1_0000
  const INT32_MAX := 0x7fff_ffff

  /** A cleared mailbox of `room` bytes with `data` copied to its start. */
  function Padded(data: seq<byte>, room: nat): (body: seq<byte>)
    ensures |body| == if |data| <= room then room else |data|
    ensures body[..|data|] == data
  {
    if |data| <= room then data + Zeros(room - |data|) else data
  }

  /** Bytes `a` up to `b` of the parameter. */
  function Part(p: seq<byte>, a: nat, b: nat): (r: seq<byte>)
    requires a <= b <= |p|
    ensures |r| == b - a
  {
    p[a..b]
  }

  lemma {:induction false} PartsJoin(p: seq<byte>, a: nat, b: nat)
    requires a <= b <= |p|
    ensures Part(p, 0, a) + Part(p, a, b) == Part(p, 0, b)
    ensures Part(p, 0, |p|) == p
  {
  }

  function Le32(n: nat): (b: seq<byte>)
    ensures |b| == 4
  {
    [n % 256, n / 256 % 256, n / 256 / 256 % 256, n / 256 / 256 / 256 % 256]
  }

  function Value32(b: seq<byte>): nat
    requires |b| == 4
  {
    b[0] as int + 256 * b[1] as int + 65536 * b[2] as int + 16777216 * b[3] as int
  }

  lemma {:induction false} Le32RoundTrip(n: nat)
    requires n < 0x1_0000_0000
    ensures Value32(Le32(n)) == n
  {
    var n1 := n / 256;
    var n2 := n1 / 256;
    var n3 := n2 / 256;
    assert n == n % 256 + 256 * n1 && n1 == n1 % 256 + 256 * n2 && n2 == n2 % 256 + 256 * n3;
    assert n3 < 256;
  }

  // ----- Command bits -----

  predicate Expedited(c: nat) { c / 2 % 2 == 1 }
  function ExpeditedSize(c: nat): nat { 4 - c / 4 % 4 }
  predicate SegmentReply(c: nat) { c % 256 / 32 == 0 }
  predicate LastSegment(c: nat) { c % 2 == 1 }
  function Unused(c: nat): nat { c / 2 % 8 }
  function Toggle(c: nat): nat { c / 16 % 2 }

  function Flip(toggle: nat): (t: nat)
    ensures t <= 1
  {
    1 - toggle % 2
  }

  /** The toggle bit after `i` flips. */
  function Flips(toggle: nat, i: nat): nat
    decreases i
  {
    if i == 0 then toggle else Flips(Flip(toggle), i - 1)
  }

  // ----- Writing -----

  /** What the request names, and the room behind the command byte of a mailbox buffer. */
  datatype Target = Target(index: nat, subindex: nat, complete: bool, room: nat)

  function Header(t: Target): (h: seq<byte>)
    ensures |h| == 3 && h[..2] == Le16(t.index)
  {
    Le16(t.index) + [(if t.complete && t.subindex > 1 then 1 else t.subindex) % 256]
  }

  function ExpeditedFrame(t: Target, p: seq<byte>): Frame
    requires |p| <= 4
  {
    Frame(0x0a, 0x23 + (4 - |p|) % 4 * 4, Padded(Header(t) + p, t.room))
  }

  function NormalFrame(t: Target, p: seq<byte>, maxdata: nat): Frame
  {
    var n := if |p| > maxdata then maxdata else |p|;
    Frame(0x0a + n, if t.complete then 0x31 else 0x21, Padded(Header(t) + Le32(|p|) + Part(p, 0, n), t.room))
  }

  /** The segment frame at `pos`; `most` bytes fit in one, `toggle` is 0 or 1. */
  function SegmentFrame(p: seq<byte>, pos: nat, most: nat, toggle: nat, room: nat): Frame
    requires pos <= |p|
  {
    var left := |p| - pos;
    if left > most then Frame(most + 3, 16 * toggle, Padded(Part(p, pos, pos + most), room))
    else if left < 7 then Frame(0x0a, 1 + (7 - left) * 2 + 16 * toggle, Padded(Part(p, pos, |p|), room))
    else Frame(left + 3, 1 + 16 * toggle, Padded(Part(p, pos, |p|), room))
  }

  function Segments(p: seq<byte>, pos: nat, most: nat, toggle: nat, room: nat): (fs: seq<Frame>)
    requires pos <= |p| && most > 0
    ensures |fs| > 0
    decreases |p| - pos
  {
    [SegmentFrame(p, pos, most, toggle, room)]
    + if |p| - pos > most then Segments(p, pos + most, most, Flip(toggle), room) else []
  }

  lemma {:induction false} SegmentsUnfold(p: seq<byte>, pos: nat, most: nat, toggle: nat, room: nat)
    requires pos <= |p| && most > 0
    ensures var fs := Segments(p, pos, most, toggle, room);
            && fs[0] == SegmentFrame(p, pos, most, toggle, room)
            && (if |p| - pos > most then fs[1..] == Segments(p, pos + most, most, Flip(toggle), room) else |fs| == 1)
  {
    hide SegmentFrame, Flip;
  }

  /** All frames of a write; `maxdata` is what fits a normal frame. */
  function Encode(t: Target, p: seq<byte>, maxdata: nat): (fs: seq<Frame>)
    ensures |fs| > 0
  {
    if |p| <= 4 && !t.complete then [ExpeditedFrame(t, p)]
    else [NormalFrame(t, p, maxdata)] + if |p| > maxdata then Segments(p, maxdata, maxdata + 7, 0, t.room) else []
  }

  // ----- Reading -----

  datatype Result = Data(data: seq<byte>) | TooSmall | Foreign | Incomplete

  /** A frame that holds everything its length word announces. */
  predicate Sound(f: Frame)
  {
    && |f.body| >= 7 && |f.body| + 3 >= f.length && 10 <= f.length < WORD && f.command < 256
    && (Expedited(f.command) || Value32(f.body[3..7]) <= INT32_MAX)
  }

  /** The parameter bytes of a normal frame. */
  function FirstPart(f: Frame): (data: seq<byte>)
    requires Sound(f)
    ensures |data| == f.length - 10
  {
    f.body[7..f.length - 3]
  }

  predicate SoundSegment(f: Frame)
  {
    |f.body| + 3 >= f.length && 3 <= f.length < WORD && f.command < 256
  }

  predicate SoundReply(fs: seq<Frame>)
  {
    fs != [] && Sound(fs[0]) && forall i :: 1 <= i < |fs| ==> SoundSegment(fs[i])
  }

  /** Payload of a segment: what the length says, less the unused bytes of a shortest last one. */
  function SegmentSize(f: Frame): nat
    requires SoundSegment(f)
  {
    if LastSegment(f.command) && f.length - 3 == 7 then 7 - Unused(f.command) else f.length - 3
  }

  function Payload(f: Frame): seq<byte>
    requires SoundSegment(f)
  {
    f.body[..SegmentSize(f)]
  }

  function Gather(fs: seq<Frame>, got: seq<byte>): Result
    requires forall i :: 0 <= i < |fs| ==> SoundSegment(fs[i])
    decreases fs
  {
    if fs == [] then Incomplete
    else if !SegmentReply(fs[0].command) then Foreign
    else
      var data := got + Payload(fs[0]);
      if LastSegment(fs[0].command) then Data(data) else Gather(fs[1..], data)
  }

  /** Reads the frames as the reply for `index` into a buffer of `size` bytes. */
  function Decode(fs: seq<Frame>, index: nat, size: nat): Result
    requires SoundReply(fs)
  {
    var f := fs[0];
    if f.body[..2] != Le16(index) then Foreign
    else if Expedited(f.command) then
      if size >= ExpeditedSize(f.command) then Data(f.body[3..3 + ExpeditedSize(f.command)]) else TooSmall
    else
      var total := Value32(f.body[3..7]);
      if total > size then TooSmall
      else if f.length - 10 < total then Gather(fs[1..], FirstPart(f))
      else Data(FirstPart(f)[..total])
  }

  // ----- The round trip -----

  /** A segment frame is read back as the bytes that were put in, last or not. */
  lemma {:induction false} SegmentReads(p: seq<byte>, pos: nat, most: nat, toggle: nat, room: nat)
    requires pos < |p| && 7 <= most && most + 3 < WORD && toggle <= 1 && room >= 7
    ensures var f := SegmentFrame(p, pos, most, toggle, room);
            && SoundSegment(f) && SegmentReply(f.command) && Toggle(f.command) == toggle
            && (LastSegment(f.command) <==> |p| - pos <= most)
            && Payload(f) == (if |p| - pos > most then Part(p, pos, pos + most) else Part(p, pos, |p|))
            && f.length <= most + 3
  {
    var left := |p| - pos;
    var f := SegmentFrame(p, pos, most, toggle, room);
    if left > most {
      CommandBits(0, 0, toggle, 0);
    } else {
      CommandBits(1, if left < 7 then 7 - left else 0, toggle, 0);
    }
  }

  /** The command byte of a segment: bit 0 says that it is the last, bits 1 to 3 how many bytes are not
      used, bit 4 is the toggle bit, and bits 5 to 7 are the specifier, 0 in a segment of an answer. */
  lemma {:induction false} CommandBits(last: nat, unused: nat, toggle: nat, specifier: nat)
    requires last <= 1 && unused <= 7 && toggle <= 1 && specifier <= 7
    ensures var c := last + unused * 2 + 16 * toggle + 32 * specifier;
            && Toggle(c) == toggle && Unused(c) == unused && (LastSegment(c) <==> last == 1)
            && (SegmentReply(c) <==> specifier == 0)
  {
    var c := last + unused * 2 + 16 * toggle + 32 * specifier;
    assert c < 256 && c / 32 == specifier;
    assert c / 2 == unused + 8 * (toggle + 2 * specifier);
    assert c / 16 == toggle + 2 * specifier;
  }

  /** That of an answer with a parameter: bit 1 says that the data are in it, and then bits 2 and 3 how
      many bytes of four are not used. */
  lemma {:induction false} AnswerBits(indicated: nat, expedited: nat, unused: nat, more: nat)
    requires indicated <= 1 && expedited <= 1 && unused <= 3
    ensures var c := indicated + 2 * expedited + 4 * unused + 16 * more;
            (Expedited(c) <==> expedited == 1) && ExpeditedSize(c) + unused == 4
  {
    assert (indicated + 2 * expedited + 4 * unused + 16 * more) / 2 == expedited + 2 * unused + 8 * more;
    assert (indicated + 2 * expedited + 4 * unused + 16 * more) / 4 == unused + 4 * more;
  }

  /** Segment `i` of a transfer whose first segment has toggle bit `toggle`. */
  predicate InTurn(fs: seq<Frame>, i: nat, toggle: nat)
    requires i < |fs|
  {
    Toggle(fs[i].command) == Flips(toggle, i) && (LastSegment(fs[i].command) <==> i == |fs| - 1)
  }

  /** The segments of a parameter from `pos` on are gathered to the rest of it. */
  lemma {:induction false} SegmentsGather(p: seq<byte>, pos: nat, most: nat, toggle: nat, room: nat)
    requires pos < |p| && 7 <= most && most + 3 < WORD && toggle <= 1 && room >= 7
    ensures var fs := Segments(p, pos, most, toggle, room);
            && (forall i :: 0 <= i < |fs| ==> SoundSegment(fs[i]))
            && Gather(fs, Part(p, 0, pos)) == Data(p)
    decreases |p| - pos
  {
    hide Segments, SegmentFrame, Payload, Part, LastSegment, SegmentReply, SoundSegment;
    SegmentsUnfold(p, pos, most, toggle, room);
    SegmentReads(p, pos, most, toggle, room);
    if |p| - pos > most {
      PartsJoin(p, pos, pos + most);
      SegmentsGather(p, pos + most, most, Flip(toggle), room);
    } else {
      PartsJoin(p, pos, |p|);
    }
  }

  /** Their toggle bits alternate, exactly the final one has the last bit, and each fits. */
  lemma {:induction false} SegmentsAlternate(p: seq<byte>, pos: nat, most: nat, toggle: nat, room: nat, i: nat)
    requires pos < |p| && 7 <= most && most + 3 < WORD && toggle <= 1 && room >= 7
    requires i < |Segments(p, pos, most, toggle, room)|
    ensures var fs := Segments(p, pos, most, toggle, room);
            InTurn(fs, i, toggle) && fs[i].length <= most + 3
    decreases i
  {
    hide Segments, SegmentFrame, Payload, Part, LastSegment, SegmentReply, SoundSegment, Toggle, Flip;
    SegmentsUnfold(p, pos, most, toggle, room);
    SegmentReads(p, pos, most, toggle, room);
    if i > 0 {
      var fs := Segments(p, pos, most, toggle, room);
      assert fs[i] == fs[1..][i - 1];
      SegmentsAlternate(p, pos + most, most, Flip(toggle), room, i - 1);
    }
  }

  lemma {:induction false} ExpeditedReads(t: Target, p: seq<byte>)
    requires |p| <= 4 && t.room >= 7
    ensures var f := ExpeditedFrame(t, p);
            && Sound(f) && Expedited(f.command) && f.body[..2] == Le16(t.index)
            && ExpeditedSize(f.command) == (if |p| == 0 then 4 else |p|) && f.body[3..3 + |p|] == p
  {
    var f, e := ExpeditedFrame(t, p), Header(t) + p;
    assert e[..2] == Le16(t.index) && e[3..] == p;
    assert f.body[..2] == f.body[..|e|][..2] && f.body[3..3 + |p|] == f.body[..|e|][3..];
  }

  lemma {:induction false} NormalReads(t: Target, p: seq<byte>, maxdata: nat)
    requires maxdata + 16 < WORD && |p| <= INT32_MAX && t.room >= 7
    ensures var f := NormalFrame(t, p, maxdata);
            && Sound(f) && !Expedited(f.command) && f.body[..2] == Le16(t.index) && Value32(f.body[3..7]) == |p|
            && f.length == 10 + (if |p| > maxdata then maxdata else |p|)
            && FirstPart(f) == Part(p, 0, f.length - 10)
  {
    hide Le32, Le16, Value32;
    Le32RoundTrip(|p|);
    var n := if |p| > maxdata then maxdata else |p|;
    NormalBody(Header(t), Le32(|p|), Part(p, 0, n), t.room);
    assert Header(t)[..2] == Le16(t.index);
  }

  lemma {:induction false} NormalBody(h: seq<byte>, size: seq<byte>, data: seq<byte>, room: nat)
    requires |h| == 3 && |size| == 4
    ensures var body := Padded(h + size + data, room);
            |body| >= 7 + |data| && body[..2] == h[..2] && body[3..7] == size && body[7..7 + |data|] == data
  {
    var d := h + size + data;
    var body := Padded(d, room);
    assert body[..|d|] == d;
    assert body[..2] == body[..|d|][..2] && body[3..7] == body[..|d|][3..7] && body[7..7 + |data|] == body[..|d|][7..];
  }

  lemma {:induction false} ExpeditedRoundTrip(t: Target, p: seq<byte>, size: nat)
    requires |p| <= 4 && |p| <= size && t.room >= 7
    ensures var fs := [ExpeditedFrame(t, p)];
            SoundReply(fs) && (Decode(fs, t.index, size) == Data(p) <==> |p| > 0)
  {
    hide ExpeditedFrame, Sound, Le16, Expedited, ExpeditedSize;
    ExpeditedReads(t, p);
    var f := ExpeditedFrame(t, p);
    if size >= ExpeditedSize(f.command) {
      assert |f.body[3..3 + ExpeditedSize(f.command)]| == ExpeditedSize(f.command);
    }
  }

  lemma {:induction false} NormalRoundTrip(t: Target, p: seq<byte>, maxdata: nat, size: nat)
    requires maxdata + 16 < WORD && |p| <= INT32_MAX && |p| <= size && t.room >= 7
    ensures var fs := [NormalFrame(t, p, maxdata)]
                      + if |p| > maxdata then Segments(p, maxdata, maxdata + 7, 0, t.room) else [];
            SoundReply(fs) && Decode(fs, t.index, size) == Data(p)
  {
    hide NormalFrame, Sound, SoundSegment, Segments, Gather, Le16, Expedited, Part, FirstPart, Value32;
    var f := NormalFrame(t, p, maxdata);
    NormalReads(t, p, maxdata);
    if |p| > maxdata {
      var rest := Segments(p, maxdata, maxdata + 7, 0, t.room);
      SegmentsGather(p, maxdata, maxdata + 7, 0, t.room);
      assert ([f] + rest)[1..] == rest;
    } else {
      assert [f] + [] == [f];
      PartsJoin(p, 0, |p|);
    }
  }

  /** Reading undoes writing, for every mailbox that can be written to at all, exactly when there
      is a parameter or complete access is asked for: an expedited frame cannot say "no bytes". */
  lemma {:induction false} WriteThenRead(t: Target, p: seq<byte>, mbxl: nat, size: nat)
    requires 16 <= mbxl < WORD && |p| <= INT32_MAX && |p| <= size && t.room >= 7
    ensures var fs := Encode(t, p, mbxl - 16);
            SoundReply(fs) && (Decode(fs, t.index, size) == Data(p) <==> |p| > 0 || t.complete)
  {
    hide SoundReply, Decode, NormalFrame, Segments, ExpeditedFrame;
    if |p| <= 4 && !t.complete {
      ExpeditedRoundTrip(t, p, size);
    } else {
      NormalRoundTrip(t, p, mbxl - 16, size);
    }
  }

  // ----- What goes over the wire -----

  /** The first frame of a write, byte by byte: command, index and subindex, and the parameter, or its
      size and as much of it as fits.  Complete access starts at subindex 0 or 1. */
  predicate FirstOnWire(f: Frame, t: Target, p: seq<byte>, maxdata: nat)
  {
    && |f.body| >= 7
    && (t.index < WORD ==> f.body[0] as int + 256 * f.body[1] as int == t.index)
    && (t.subindex < 256 ==> f.body[2] as int == if t.complete && t.subindex > 1 then 1 else t.subindex)
    && if |p| <= 4 && !t.complete
       then
         && f.length == 10 && f.command == (if |p| == 0 then 0x23 else 0x23 + 4 * (4 - |p|))
         && f.body[3..3 + |p|] == p
       else
         var n := if |p| < maxdata then |p| else maxdata;
         && f.length == 10 + n && f.command == (if t.complete then 0x31 else 0x21)
         && (|p| < 0x1_0000_0000 ==>
               f.body[3] as int + 0x100 * f.body[4] as int + 0x1_0000 * f.body[5] as int
               + 0x100_0000 * f.body[6] as int == |p|)
         && |f.body| >= 7 + n && f.body[7..7 + n] == p[..n]
  }

  /** Segment `i`, which starts at `pos` of the parameter. */
  predicate SegmentOnWire(f: Frame, p: seq<byte>, pos: nat, most: nat, i: nat)
  {
    && pos <= |p|
    && var n, last := (if |p| - pos < most then |p| - pos else most), |p| - pos <= most;
    && f.length == (if last && n < 7 then 10 else n + 3)
    && f.command == (if last then 1 + (if n < 7 then 2 * (7 - n) else 0) else 0) + (if i % 2 == 0 then 0 else 16)
    && |f.body| >= n && f.body[..n] == p[pos..pos + n]
  }

  /** The frames of a write: the first one and, `maxdata` bytes in, segments of seven bytes more. */
  predicate OnWire(fs: seq<Frame>, t: Target, p: seq<byte>, maxdata: nat)
  {
    && (fs != [] ==> FirstOnWire(fs[0], t, p, maxdata))
    && forall i :: 0 < i < |fs| ==> SegmentOnWire(fs[i], p, maxdata + (i - 1) * (maxdata + 7), maxdata + 7, i - 1)
  }

  /** The bytes of a frame that begins with a header. */
  lemma {:induction false} HeaderGoes(t: Target, rest: seq<byte>, body: seq<byte>)
    requires body == Padded(Header(t) + rest, t.room)
    ensures |body| >= 3 + |rest| && body[3..3 + |rest|] == rest
    ensures t.index < WORD ==> body[0] as int + 256 * body[1] as int == t.index
    ensures t.subindex < 256 ==> body[2] as int == if t.complete && t.subindex > 1 then 1 else t.subindex
  {
    var e := Header(t) + rest;
    assert body[..|e|] == e;
    assert body[0] == e[0] && body[1] == e[1] && body[2] == e[2] && body[3..3 + |rest|] == body[..|e|][3..];
    assert e[..2] == Le16(t.index) && e[0] == e[..2][0] && e[1] == e[..2][1];
    if t.index < WORD {
      WordRoundTrip(t.index);
    }
  }

  lemma {:induction false} SizeGoes(n: nat, b: seq<byte>)
    requires n < 0x1_0000_0000 && b == Le32(n)
    ensures b[0] as int + 0x100 * b[1] as int + 0x1_0000 * b[2] as int + 0x100_0000 * b[3] as int == n
  {
    hide Le32;
    Le32RoundTrip(n);
  }

  lemma {:induction false} NormalGoes(t: Target, p: seq<byte>, maxdata: nat)
    requires t.room >= 7 && (|p| > 4 || t.complete)
    ensures FirstOnWire(NormalFrame(t, p, maxdata), t, p, maxdata)
  {
    hide Padded, Header, Le32;
    var n := if |p| > maxdata then maxdata else |p|;
    var size, body := Le32(|p|), NormalFrame(t, p, maxdata).body;
    var rest := size + Part(p, 0, n);
    assert Header(t) + size + Part(p, 0, n) == Header(t) + rest;
    HeaderGoes(t, rest, body);
    var back := body[3..3 + |rest|];
    assert body[3..7] == back[..4] == size;
    assert body[7..7 + n] == back[4..] == p[..n];
    if |p| < 0x1_0000_0000 {
      SizeGoes(|p|, body[3..7]);
    }
  }

  lemma {:induction false} FirstGoes(t: Target, p: seq<byte>, maxdata: nat)
    requires t.room >= 7
    ensures FirstOnWire(Encode(t, p, maxdata)[0], t, p, maxdata)
  {
    hide Padded, Header, Le32, NormalFrame, Segments;
    if |p| <= 4 && !t.complete {
      HeaderGoes(t, p, ExpeditedFrame(t, p).body);
    } else {
      NormalGoes(t, p, maxdata);
    }
  }

  lemma {:induction false} SegmentsGo(p: seq<byte>, pos: nat, most: nat, toggle: nat, room: nat, i: nat)
    requires pos <= |p| && most > 0 && toggle <= 1 && i < |Segments(p, pos, most, toggle, room)|
    ensures SegmentOnWire(Segments(p, pos, most, toggle, room)[i], p, pos + i * most, most, i + toggle)
    decreases i
  {
    hide Segments, SegmentOnWire, SegmentFrame;
    SegmentsUnfold(p, pos, most, toggle, room);
    if i == 0 {
      SegmentGoes(p, pos, most, toggle, room);
    } else {
      SegmentsGo(p, pos + most, most, Flip(toggle), room, i - 1);
      assert pos + most + (i - 1) * most == pos + i * most;
      SameToggle(Segments(p, pos, most, toggle, room)[i], p, pos + i * most, most, i - 1 + Flip(toggle), i + toggle);
    }
  }

  lemma {:induction false} SegmentGoes(p: seq<byte>, pos: nat, most: nat, toggle: nat, room: nat)
    requires pos <= |p| && most > 0 && toggle <= 1
    ensures SegmentOnWire(SegmentFrame(p, pos, most, toggle, room), p, pos, most, toggle)
  {
  }

  lemma {:induction false} SameToggle(f: Frame, p: seq<byte>, pos: nat, most: nat, i: nat, j: nat)
    requires SegmentOnWire(f, p, pos, most, i) && i % 2 == j % 2
    ensures SegmentOnWire(f, p, pos, most, j)
  {
  }

  /** What is put out for a write is what the protocol asks for. */
  lemma {:induction false} EncodeGoes(t: Target, p: seq<byte>, maxdata: nat)
    requires t.room >= 7
    ensures OnWire(Encode(t, p, maxdata), t, p, maxdata)
  {
    hide SegmentOnWire, FirstOnWire, Segments, NormalFrame, ExpeditedFrame;
    var fs := Encode(t, p, maxdata);
    FirstGoes(t, p, maxdata);
    forall i | 0 < i < |fs|
      ensures SegmentOnWire(fs[i], p, maxdata + (i - 1) * (maxdata + 7), maxdata + 7, i - 1)
    {
      SegmentsGo(p, maxdata, maxdata + 7, 0, t.room, i - 1);
    }
  }

  // ----- The writer as it runs -----

  /** How one exchange of a write ends: the slave accepts the frame, request or reply is lost, the
      slave answers with something else, or there is no mailbox to put the frame in. */
  datatype Outcome = Accepted | Lost | Refused | NoBuffer

  /** How many segments are put out: a lost one does not stop the loop. */
  function Tried(outcomes: seq<Outcome>): (n: nat)
    ensures n <= |outcomes|
  {
    if outcomes == [] || outcomes[0].NoBuffer? then 0
    else if outcomes[0].Refused? then 1
    else 1 + Tried(outcomes[1..])
  }

  function Stops(outcomes: seq<Outcome>): (n: nat)
    ensures n <= |outcomes|
  {
    if outcomes == [] || outcomes[0].NoBuffer? then 0
    else if !outcomes[0].Accepted? then 1
    else 1 + Tried(outcomes[1..])
  }

  /** The write returns a positive work counter: the last frame it put out was accepted or, when
      there was no mailbox even for the first, `stale` says that emptying the slave's mailbox
      before brought one. */
  predicate Reported(outcomes: seq<Outcome>, stale: bool)
  {
    if Stops(outcomes) == 0 then outcomes != [] && stale else outcomes[Stops(outcomes) - 1].Accepted?
  }

  /** The segments put out: all but the last were accepted or lost, and what ends the loop early is
      a refusal or a mailbox that is not there. */
  lemma {:induction false} TriedEnds(outcomes: seq<Outcome>)
    ensures var n := Tried(outcomes);
            && (forall i :: 0 <= i < n - 1 ==> outcomes[i].Accepted? || outcomes[i].Lost?)
            && (n > 0 ==> !outcomes[n - 1].NoBuffer?)
            && (n < |outcomes| ==> outcomes[n].NoBuffer? || (n > 0 && outcomes[n - 1].Refused?))
  {
    if outcomes != [] && (outcomes[0].Accepted? || outcomes[0].Lost?) {
      TriedEnds(outcomes[1..]);
      assert forall i :: 1 <= i < |outcomes| ==> outcomes[i] == outcomes[1..][i - 1];
    }
  }

  lemma {:induction false} TriedIs(outcomes: seq<Outcome>, n: nat)
    requires n <= |outcomes| && forall i :: 0 <= i < n ==> outcomes[i].Accepted? || outcomes[i].Lost?
    requires n < |outcomes| ==> outcomes[n].NoBuffer?
    ensures Tried(outcomes) == n
  {
    if n > 0 {
      TriedIs(outcomes[1..], n - 1);
    }
  }

  predicate AllAccepted(outcomes: seq<Outcome>)
  {
    forall i :: 0 <= i < |outcomes| ==> outcomes[i].Accepted?
  }

  /** The write puts out `n` frames and something is missing: all of them, for want of a mailbox,
      after one that was left over has been read; or, the last one put out being accepted, the
      segments after it, for want of a mailbox, or one before it, which was lost. */
  predicate Slips(outcomes: seq<Outcome>, n: nat, stale: bool)
  {
    && n <= |outcomes|
    && (n < |outcomes| ==> outcomes[n].NoBuffer?)
    && if n == 0 then stale && outcomes != []
       else
         && outcomes[0].Accepted? && outcomes[n - 1].Accepted?
         && (forall i :: 1 <= i < n ==> outcomes[i].Accepted? || outcomes[i].Lost?)
         && (n == |outcomes| ==> exists i :: 1 <= i < n && outcomes[i].Lost?)
  }

  lemma {:induction false} SlipStops(outcomes: seq<Outcome>, n: nat, stale: bool)
    requires Slips(outcomes, n, stale)
    ensures Reported(outcomes, stale) && Stops(outcomes) == n && !AllAccepted(outcomes)
  {
    if n > 0 {
      TriedIs(outcomes[1..], n - 1);
    }
  }

  /** Exactly when a write is reported as a success without having had every frame accepted. */
  lemma {:induction false} ReportedButIncomplete(outcomes: seq<Outcome>, stale: bool)
    requires outcomes != []
    ensures Reported(outcomes, stale) && !AllAccepted(outcomes) <==> exists n :: Slips(outcomes, n, stale)
  {
    if Reported(outcomes, stale) && !AllAccepted(outcomes) {
      TriedEnds(outcomes[1..]);
      assert forall i :: 1 <= i < |outcomes| ==> outcomes[i] == outcomes[1..][i - 1];
      assert Slips(outcomes, Stops(outcomes), stale);
    }
    forall n | Slips(outcomes, n, stale)
      ensures Reported(outcomes, stale) && !AllAccepted(outcomes)
    {
      SlipStops(outcomes, n, stale);
    }
  }

  /** So with no segment lost, a mailbox for each and, for want of one for the first frame, none
      left over, success means success. */
  lemma {:induction false} ReportedIsComplete(outcomes: seq<Outcome>, stale: bool)
    requires outcomes != [] && forall i :: 1 <= i < |outcomes| ==> outcomes[i].Accepted? || outcomes[i].Refused?
    ensures !(stale && outcomes[0].NoBuffer?) ==>
              && (Reported(outcomes, stale) <==> AllAccepted(outcomes))
              && (Reported(outcomes, stale) ==> Stops(outcomes) == |outcomes|)
    ensures stale && outcomes[0].NoBuffer? ==> Reported(outcomes, stale) && Stops(outcomes) == 0
  {
    ReportedButIncomplete(outcomes, stale);
    TriedEnds(outcomes[1..]);
    assert forall i :: 1 <= i < |outcomes| ==> outcomes[i] == outcomes[1..][i - 1];
  }

  lemma {:induction false} SegmentCount(p: seq<byte>, pos: nat, most: nat, toggle: nat, room: nat, n: nat)
    requires most > 0 && n > 0 && |p| == pos + n * most
    ensures |Segments(p, pos, most, toggle, room)| == n
    decreases n
  {
    hide SegmentFrame, Flip;
    if n > 1 {
      assert (n - 1) * most >= most;
      SegmentCount(p, pos + most, most, Flip(toggle), room, n - 1);
    }
  }

  /** Writes of any number of frames occur: to a mailbox of 128 bytes, for one. */
  lemma {:induction false} AnyLength(t: Target, n: nat)
    requires n > 0
    ensures |Encode(t, Zeros(112 + 119 * (n - 1)), 128 - 16)| == n
  {
    var p := Zeros(112 + 119 * (n - 1));
    if n > 1 {
      SegmentCount(p, 112, 119, 0, t.room, n - 1);
    }
  }

  /** Three writes of three frames that are reported although they failed, the last without having
      put out anything, and two that are not. */
  lemma {:induction false} ThreeFrames(t: Target, stale: bool)
    ensures |Encode(t, Zeros(350), 128 - 16)| == 3
    ensures Reported([Accepted, Lost, Accepted], stale) && Reported([Accepted, Accepted, NoBuffer], stale)
    ensures Reported([NoBuffer, NoBuffer, NoBuffer], true) && Stops([NoBuffer, NoBuffer, NoBuffer]) == 0
    ensures !Reported([NoBuffer, NoBuffer, NoBuffer], false) && !Reported([Accepted, Accepted, Lost], stale)
  {
    AnyLength(t, 3);
    var one := [Accepted, Lost, Accepted];
    assert one[1].Lost?;
    SlipStops(one, 3, stale);
    SlipStops([Accepted, Accepted, NoBuffer], 2, stale);
    SlipStops([NoBuffer, NoBuffer, NoBuffer], 0, true);
    TriedIs([Accepted, Lost], 2);
    assert [Accepted, Accepted, Lost][1..] == [Accepted, Lost];
  }

  /** Writes `p`: one expedited or normal frame, and while the slave goes along, segments.  A
      mailbox left over from before is read first, if there is one. */
  method SdoWrite(t: Target, p: seq<byte>, mbxl: nat, stale: bool, outcomes: seq<Outcome>)
    returns (sent: seq<Frame>, ok: bool)
    requires 16 <= mbxl && |outcomes| == |Encode(t, p, mbxl - 16)|
    ensures sent == Encode(t, p, mbxl - 16)[..Stops(outcomes)]
    ensures t.room >= 7 ==> OnWire(sent, t, p, mbxl - 16)
    ensures ok == Reported(outcomes, stale)
  {
    hide Segments, SegmentFrame, Padded, Part, Header, Le32, FirstOnWire, SegmentOnWire;
    var maxdata := mbxl - 16;
    if t.room >= 7 {
      EncodeGoes(t, p, maxdata);
    }
    ok := stale;
    if outcomes[0].NoBuffer? {
      return [], ok;
    }
    if |p| <= 4 && !t.complete {
      sent := [Frame(0x0a, 0x23 + (4 - |p|) % 4 * 4, Padded(Header(t) + p, t.room))];
      return sent, outcomes[0].Accepted?;
    }
    var size := |p|;
    var notLast := false;
    if size > maxdata {
      size, notLast := maxdata, true;
    }
    var command := if t.complete then 0x31 else 0x21;
    sent := [Frame(0x0a + size, command, Padded(Header(t) + Le32(|p|) + Part(p, 0, size), t.room))];
    ok := outcomes[0].Accepted?;
    if ok && notLast {
      ghost var all := Segments(p, size, maxdata + 7, 0, t.room);
      assert all[0..] == all && outcomes[1..][0..] == outcomes[1..];
      var segments;
      segments, ok := SendSegments(t, p, size, maxdata + 7, outcomes[1..], all);
      sent := sent + segments;
    }
  }

  /** Fills one segment mailbox; `size` bytes go in, and `notLast` says that more follow. */
  method BuildSegment(p: seq<byte>, pos: nat, most: nat, toggle: nat, room: nat)
    returns (f: Frame, size: nat, notLast: bool)
    requires pos <= |p|
    ensures f == SegmentFrame(p, pos, most, toggle, room)
    ensures notLast == (|p| - pos > most) && size == if notLast then most else |p| - pos
  {
    var command := 1;
    size, notLast := |p| - pos, false;
    if size > most {
      size, notLast, command := most, true, 0;
    }
    var length: nat;
    if !notLast && size < 7 {
      length, command := 0x0a, 1 + (7 - size) * 2;
    } else {
      length := size + 3;
    }
    f := Frame(length, command + 16 * toggle, Padded(Part(p, pos, pos + size), room));
  }

  /** From frame `k` on, `all` is the segments from `pos` on. */
  predicate RestIs(all: seq<Frame>, k: nat, t: Target, p: seq<byte>, pos: nat, most: nat, toggle: nat)
    ensures RestIs(all, k, t, p, pos, most, toggle) ==> pos <= |p| && k < |all|
  {
    pos <= |p| && most > 0 && k < |all| && all[k..] == Segments(p, pos, most, toggle, t.room)
  }

  lemma {:induction false} NextSegment(all: seq<Frame>, k: nat, t: Target, p: seq<byte>, pos: nat, most: nat,
          toggle: nat)
    requires RestIs(all, k, t, p, pos, most, toggle)
    ensures all[k] == SegmentFrame(p, pos, most, toggle, t.room)
    ensures |p| - pos > most ==> RestIs(all, k + 1, t, p, pos + most, most, Flip(toggle))
    ensures |p| - pos <= most ==> k + 1 == |all|
  {
    hide SegmentFrame, Segments;
    SegmentsUnfold(p, pos, most, toggle, t.room);
    assert all[k] == all[k..][0] && all[k + 1..] == all[k..][1..];
  }

  /** How many segments are put out from the `k`-th on. */
  function TriedFrom(outcomes: seq<Outcome>, k: nat): nat
    requires k <= |outcomes|
  {
    Tried(outcomes[k..])
  }

  lemma {:induction false} NextTried(outcomes: seq<Outcome>, k: nat)
    requires k < |outcomes|
    ensures TriedFrom(outcomes, k) == if outcomes[k].NoBuffer? then 0
            else if outcomes[k].Refused? || k + 1 == |outcomes| then 1 else 1 + TriedFrom(outcomes, k + 1)
  {
    assert outcomes[k..][1..] == outcomes[k + 1..];
  }

  /** The segments from `start` on: all of them, unless one is refused or has no mailbox. */
  method SendSegments(t: Target, p: seq<byte>, start: nat, most: nat, outcomes: seq<Outcome>, ghost all: seq<Frame>)
    returns (sent: seq<Frame>, ok: bool)
    requires RestIs(all, 0, t, p, start, most, 0) && |outcomes| == |all|
    ensures sent == all[..TriedFrom(outcomes, 0)]
    ensures ok <==> |sent| == 0 || outcomes[|sent| - 1].Accepted?
  {
    hide *;
    var pos: nat, toggle: nat, notLast := start, 0, true;
    sent, ok := [], true;
    while notLast && !outcomes[|sent|].NoBuffer?
      invariant |sent| <= |all| && sent == all[..|sent|]
      invariant notLast ==> |sent| < |all| && RestIs(all, |sent|, t, p, pos, most, toggle)
      invariant TriedFrom(outcomes, 0) == |sent| + if notLast then TriedFrom(outcomes, |sent|) else 0
      invariant ok <==> |sent| == 0 || outcomes[|sent| - 1].Accepted?
      decreases |outcomes| - |sent|
    {
      NextSegment(all, |sent|, t, p, pos, most, toggle);
      NextTried(outcomes, |sent|);
      var f, size;
      f, size, notLast := BuildSegment(p, pos, most, toggle, t.room);
      ok := outcomes[|sent|].Accepted?;
      notLast := notLast && !outcomes[|sent|].Refused?;
      sent := sent + [f];
      pos := pos + size;
      toggle := Flip(toggle);
    }
    if notLast {
      NextTried(outcomes, |sent|);
    }
  }

  // ----- The reader as it runs -----

  /** How one exchange of a read ends: a reply, none, or no mailbox to ask with. */
  datatype Event = Reply(frame: Frame) | Silence | NoMailbox

  /** Frames that arrived hold what they announce, the first one as an answer, the rest as segments. */
  predicate SoundEvents(es: seq<Event>)
  {
    && (es != [] && es[0].Reply? ==> Sound(es[0].frame))
    && forall i :: 1 <= i < |es| && es[i].Reply? ==> SoundSegment(es[i].frame)
  }

  predicate SoundSegments(es: seq<Event>)
  {
    forall i :: 0 <= i < |es| && es[i].Reply? ==> SoundSegment(es[i].frame)
  }

  /** The segments of a read: one that does not come is asked for again, and the read ends with what
      it has when there is no mailbox; `good` says that the last exchange brought a reply. */
  function Collect(es: seq<Event>, got: seq<byte>, good: bool): Result
    requires SoundSegments(es)
    decreases es
  {
    if es == [] then Incomplete
    else
      match es[0]
      case NoMailbox => if good then Data(got) else Incomplete
      case Silence => Collect(es[1..], got, false)
      case Reply(f) =>
        if !SegmentReply(f.command) then Foreign
        else
          var data := got + Payload(f);
          if LastSegment(f.command) then Data(data) else Collect(es[1..], data, true)
  }

  /** A whole read that gets to ask. */
  function ReadOf(es: seq<Event>, index: nat, size: nat): Result
    requires SoundEvents(es)
  {
    if es == [] || !es[0].Reply? then Incomplete
    else
      var f := es[0].frame;
      if f.body[..2] != Le16(index) then Foreign
      else if Expedited(f.command) then
        if size >= ExpeditedSize(f.command) then Data(f.body[3..3 + ExpeditedSize(f.command)]) else TooSmall
      else
        var total := Value32(f.body[3..7]);
        if total > size then TooSmall
        else if f.length - 10 < total then Collect(es[1..], FirstPart(f), true)
        else Data(FirstPart(f)[..total])
  }

  /** All frames arrive. */
  function Arrived(fs: seq<Frame>): (es: seq<Event>)
    ensures |es| == |fs| && forall i :: 0 <= i < |fs| ==> es[i] == Reply(fs[i])
  {
    if fs == [] then [] else [Reply(fs[0])] + Arrived(fs[1..])
  }

  lemma {:induction false} CollectsAll(fs: seq<Frame>, got: seq<byte>)
    requires forall i :: 0 <= i < |fs| ==> SoundSegment(fs[i])
    ensures Collect(Arrived(fs), got, true) == Gather(fs, got)
    decreases fs
  {
    hide SoundSegment, Payload, LastSegment, SegmentReply;
    if fs != [] {
      CollectsAll(fs[1..], got + Payload(fs[0]));
    }
  }

  /** When all frames arrive, the read is what they say. */
  lemma {:induction false} ReadIsDecode(fs: seq<Frame>, index: nat, size: nat)
    requires SoundReply(fs)
    ensures SoundEvents(Arrived(fs)) && ReadOf(Arrived(fs), index, size) == Decode(fs, index, size)
  {
    hide Sound, SoundSegment, Expedited, ExpeditedSize, Value32, Le16, Gather, Collect;
    assert Arrived(fs)[0] == Reply(fs[0]) && Arrived(fs)[1..] == Arrived(fs[1..]);
    CollectsAll(fs[1..], FirstPart(fs[0]));
  }

  /** A segment that is not the last, or nothing. */
  predicate GoesOn(e: Event)
  {
    e.Silence? || (e.Reply? && SegmentReply(e.frame.command) && !LastSegment(e.frame.command))
  }

  /** The last segment arrives as event `k`. */
  predicate EndsAt(es: seq<Event>, k: nat)
  {
    && k < |es| && es[k].Reply? && SegmentReply(es[k].frame.command) && LastSegment(es[k].frame.command)
    && forall i :: 0 <= i < k ==> GoesOn(es[i])
  }

  /** There is no mailbox for request `k`, and the exchange before it brought a reply. */
  predicate CutAt(es: seq<Event>, k: nat, good: bool)
  {
    && k < |es| && es[k].NoMailbox? && (if k == 0 then good else es[k - 1].Reply?)
    && forall i :: 0 <= i < k ==> GoesOn(es[i])
  }

  /** The frames that came. */
  function Came(es: seq<Event>): (fs: seq<Frame>)
    requires SoundSegments(es)
    ensures forall i :: 0 <= i < |fs| ==> SoundSegment(fs[i])
  {
    if es == [] then []
    else (if es[0].Reply? then [es[0].frame] else []) + Came(es[1..])
  }

  lemma {:induction false} CameFirst(es: seq<Event>)
    requires SoundSegments(es) && es != []
    ensures SoundSegments(es[1..])
    ensures es[0].Reply? ==> SoundSegment(es[0].frame) && Came(es) == [es[0].frame] + Came(es[1..])
    ensures !es[0].Reply? ==> Came(es) == Came(es[1..])
  {
    hide SoundSegment;
    assert [] + Came(es[1..]) == Came(es[1..]);
  }

  /** A read whose last segment arrives has all that came, in order, however often it had to ask. */
  lemma {:induction false} WholeRead(es: seq<Event>, got: seq<byte>, good: bool, k: nat)
    requires SoundSegments(es) && EndsAt(es, k)
    ensures Collect(es, got, good).Data? && Collect(es, got, good) == Gather(Came(es), got)
    decreases es
  {
    hide SoundSegment, LastSegment, SegmentReply, Payload, Came;
    CameFirst(es);
    if es[0].Reply? {
      assert ([es[0].frame] + Came(es[1..]))[1..] == Came(es[1..]);
    }
    if k > 0 {
      assert GoesOn(es[0]);
      WholeRead(es[1..], if es[0].Silence? then got else got + Payload(es[0].frame), es[0].Reply?, k - 1);
    }
  }

  lemma {:induction false} CutRead(es: seq<Event>, got: seq<byte>, good: bool, k: nat)
    requires SoundSegments(es) && CutAt(es, k, good)
    ensures Collect(es, got, good).Data? && forall j :: !EndsAt(es, j)
    decreases es
  {
    hide SoundSegment, Payload;
    forall j: nat ensures !EndsAt(es, j) {
      assert j < k ==> GoesOn(es[j]);
      assert !GoesOn(es[k]);
    }
    if k > 0 {
      assert GoesOn(es[0]);
      CutRead(es[1..], if es[0].Silence? then got else got + Payload(es[0].frame), es[0].Reply?, k - 1);
    }
  }

  lemma {:induction false} ReadEnds(es: seq<Event>, got: seq<byte>, good: bool) returns (k: nat)
    requires SoundSegments(es) && Collect(es, got, good).Data?
    ensures EndsAt(es, k) || CutAt(es, k, good)
    decreases es
  {
    hide SoundSegment, LastSegment, SegmentReply, Payload;
    k := 0;
    if GoesOn(es[0]) {
      k := ReadEnds(es[1..], if es[0].Silence? then got else got + Payload(es[0].frame), es[0].Reply?);
      assert forall i :: 1 <= i < |es| ==> es[i] == es[1..][i - 1];
      k := k + 1;
    }
  }

  /** Exactly when a read by segments is reported as a success without the last of them. */
  lemma {:induction false} ReadButIncomplete(es: seq<Event>, got: seq<byte>, good: bool)
    requires SoundSegments(es)
    ensures Collect(es, got, good).Data? && (forall k :: !EndsAt(es, k)) <==> exists k :: CutAt(es, k, good)
  {
    hide SoundSegment, EndsAt, CutAt, Collect;
    if Collect(es, got, good).Data? {
      var k := ReadEnds(es, got, good);
    }
    forall k | CutAt(es, k, good)
      ensures Collect(es, got, good).Data? && forall j :: !EndsAt(es, j)
    {
      CutRead(es, got, good, k);
    }
  }

  /** What one exchange brings. */
  function BroughtBy(e: Event): seq<byte>
    requires e.Reply? ==> SoundSegment(e.frame)
  {
    if e.Reply? then Payload(e.frame) else []
  }

  lemma {:induction false} JoinThree(a: seq<byte>, b: seq<byte>, c: seq<byte>)
    ensures (a + b) + c == a + (b + c)
  {
  }

  /** The payloads of the replies among the first `n` exchanges, one after the other. */
  function Payloads(es: seq<Event>, n: nat): seq<byte>
    requires n <= |es| && SoundSegments(es)
  {
    if n == 0 then [] else Payloads(es, n - 1) + BroughtBy(es[n - 1])
  }

  /** A read by segments is over with exchange `k`: the last one comes, or there is no mailbox. */
  predicate OverAt(es: seq<Event>, k: nat, good: bool)
    ensures OverAt(es, k, good) ==> k < |es|
  {
    EndsAt(es, k) || CutAt(es, k, good)
  }

  lemma {:induction false} PayloadsFirst(es: seq<Event>, n: nat)
    requires 0 < n <= |es| && SoundSegments(es)
    ensures SoundSegments(es[1..])
    ensures Payloads(es, n) == BroughtBy(es[0]) + Payloads(es[1..], n - 1)
    decreases n
  {
    hide BroughtBy, SoundSegment, Payload;
    var first := BroughtBy(es[0]);
    assert forall i :: 0 <= i < |es| - 1 ==> es[1..][i] == es[i + 1];
    if n == 1 {
      assert Payloads(es, 0) == [] && Payloads(es[1..], 0) == [];
      assert [] + first == first == first + [];
    } else {
      PayloadsFirst(es, n - 1);
      assert es[1..][n - 2] == es[n - 1];
      JoinThree(first, Payloads(es[1..], n - 2), BroughtBy(es[n - 1]));
    }
  }

  lemma {:induction false} OverNext(es: seq<Event>, k: nat, good: bool)
    requires OverAt(es, k, good) && k > 0
    ensures GoesOn(es[0]) && OverAt(es[1..], k - 1, es[0].Reply?)
  {
    hide LastSegment, SegmentReply;
    var rest := es[1..];
    assert rest[k - 1] == es[k] && (k > 1 ==> rest[k - 2] == es[k - 1]);
    assert forall i :: 0 <= i < k - 1 ==> rest[i] == es[i + 1];
    assert GoesOn(es[0]);
  }

  /** What a read by segments brings. */
  lemma {:induction false} CollectIs(es: seq<Event>, got: seq<byte>, good: bool, k: nat)
    requires SoundSegments(es) && OverAt(es, k, good)
    ensures Collect(es, got, good) == Data(got + Payloads(es, k + 1))
    decreases es
  {
    hide SoundSegment, LastSegment, SegmentReply, Payload, Payloads, OverAt;
    PayloadsFirst(es, k + 1);
    if k == 0 {
      OverFirst(es, got, good);
    } else {
      OverNext(es, k, good);
      assert got + [] == got;
      CollectIs(es[1..], got + BroughtBy(es[0]), es[0].Reply?, k - 1);
      JoinThree(got, BroughtBy(es[0]), Payloads(es[1..], k));
    }
  }

  lemma {:induction false} OverFirst(es: seq<Event>, got: seq<byte>, good: bool)
    requires SoundSegments(es) && OverAt(es, 0, good)
    ensures SoundSegments(es[1..]) && Payloads(es[1..], 0) == []
    ensures Collect(es, got, good) == Data(got + (BroughtBy(es[0]) + []))
  {
    hide SoundSegment, Payload;
    assert got + [] == got && BroughtBy(es[0]) + [] == BroughtBy(es[0]);
  }

  /** What a read returns, byte by byte: nothing unless an answer for the index comes first; then the one
      to four bytes in it, or as many behind its size as that says, or, when it does not hold them all,
      those it holds and the payloads of the segments that follow. */
  ghost predicate Answers(es: seq<Event>, index: nat, size: nat, data: seq<byte>)
    requires SoundEvents(es)
  {
    && es != [] && es[0].Reply?
    && var f := es[0].frame;
    && f.body[0] as int + 256 * f.body[1] as int == index
    && if f.command / 2 % 2 == 1 then
         var n := 4 - f.command / 4 % 4;
         n <= size && data == f.body[3..3 + n]
       else
         var total := f.body[3] as int + 0x100 * f.body[4] as int + 0x1_0000 * f.body[5] as int
                      + 0x100_0000 * f.body[6] as int;
         && total <= size
         && if total <= f.length - 10 then data == f.body[7..7 + total]
            else
              exists k: nat ::
                OverAt(es[1..], k, true) && data == f.body[7..f.length - 3] + Payloads(es[1..], k + 1)
  }

  lemma {:induction false} IndexIs(body: seq<byte>, index: nat)
    requires |body| >= 2 && index < WORD
    ensures body[..2] == Le16(index) <==> body[0] as int + 256 * body[1] as int == index
  {
    WordRoundTrip(index);
    assert body[..2] == [body[0], body[1]];
  }

  lemma {:induction false} ReadAnswers(es: seq<Event>, index: nat, size: nat, data: seq<byte>)
    requires SoundEvents(es) && index < WORD
    ensures ReadOf(es, index, size) == Data(data) <==> Answers(es, index, size, data)
  {
    hide Le16, Collect, OverAt, Payloads, SoundSegment;
    if es != [] && es[0].Reply? {
      var f := es[0].frame;
      IndexIs(f.body, index);
      assert FirstPart(f) == f.body[7..f.length - 3];
      forall k: nat | OverAt(es[1..], k, true)
        ensures Collect(es[1..], FirstPart(f), true) == Data(FirstPart(f) + Payloads(es[1..], k + 1))
      {
        CollectIs(es[1..], FirstPart(f), true, k);
      }
      if Collect(es[1..], FirstPart(f), true).Data? {
        var k := SegmentsEnd(es[1..], FirstPart(f), true);
      }
      SlicesAgree(f);
    }
  }

  lemma {:induction false} SegmentsEnd(es: seq<Event>, got: seq<byte>, good: bool) returns (k: nat)
    requires SoundSegments(es) && Collect(es, got, good).Data?
    ensures OverAt(es, k, good)
  {
    k := ReadEnds(es, got, good);
  }

  lemma {:induction false} SlicesAgree(f: Frame)
    requires Sound(f)
    ensures forall n :: 0 <= n <= f.length - 10 ==> FirstPart(f)[..n] == f.body[7..7 + n]
    ensures Value32(f.body[3..7]) == f.body[3] as int + 0x100 * f.body[4] as int + 0x1_0000 * f.body[5] as int
                                     + 0x100_0000 * f.body[6] as int
  {
    var size := f.body[3..7];
    assert size[0] == f.body[3] && size[1] == f.body[4] && size[2] == f.body[5] && size[3] == f.body[6];
    var held := f.body[7..f.length - 3];
    forall n | 0 <= n <= f.length - 10 ensures FirstPart(f)[..n] == f.body[7..7 + n] {
      assert held[..n] == f.body[7..7 + n];
    }
  }

  /** A parameter of 350 bytes of which a read returns the first 112, and reports success. */
  lemma {:induction false} TruncatedRead(t: Target, p: seq<byte>)
    requires |p| == 350 && t.room >= 7
    ensures var es := [Reply(Encode(t, p, 128 - 16)[0]), NoMailbox];
            SoundEvents(es) && ReadOf(es, t.index, 350) == Data(Part(p, 0, 112))
  {
    hide NormalFrame, Sound, Le16, Expedited, Part, FirstPart, Value32, Segments;
    NormalReads(t, p, 112);
    var es := [Reply(Encode(t, p, 128 - 16)[0]), NoMailbox];
    assert es[1..][0] == NoMailbox;
  }

  /** Bytes that the segments put behind each other in the parameter buffer. */
  function Gathered(es: seq<Event>): nat
    requires SoundSegments(es)
    decreases es
  {
    if es == [] || es[0].NoMailbox? then 0
    else if es[0].Silence? then Gathered(es[1..])
    else if !SegmentReply(es[0].frame.command) then 0
    else SegmentSize(es[0].frame) + if LastSegment(es[0].frame.command) then 0 else Gathered(es[1..])
  }

  /** Bytes that the replies put into the parameter buffer. */
  function Brought(es: seq<Event>): nat
    requires SoundEvents(es)
  {
    if es == [] || !es[0].Reply? then 0 else es[0].frame.length - 10 + Gathered(es[1..])
  }

  /** Reads into `buffer`: `n` bytes of it, when `ok`.  Without a mailbox for the first request
      nothing is read, and `stale` decides. */
  method SdoRead(es: seq<Event>, stale: bool, index: nat, buffer: array<byte>) returns (ok: bool, n: nat)
    requires es != [] && SoundEvents(es) && Brought(es) <= buffer.Length
    modifies buffer
    ensures es[0].NoMailbox? ==> ok == stale && n == buffer.Length && buffer[..] == old(buffer[..])
    ensures !es[0].NoMailbox? ==>
              && (ok <==> ReadOf(es, index, buffer.Length).Data?)
              && (ok ==> n <= buffer.Length && buffer[..n] == ReadOf(es, index, buffer.Length).data)
    ensures !es[0].NoMailbox? && index < WORD && ok ==> Answers(es, index, buffer.Length, buffer[..n])
    ensures !es[0].NoMailbox? && index < WORD && !ok ==> forall data :: !Answers(es, index, buffer.Length, data)
  {
    hide Value32, SegmentSize, LastSegment, SegmentReply, Collect, Gathered, Le16, Answers;
    if index < WORD {
      forall data ensures ReadOf(es, index, buffer.Length) == Data(data) <==> Answers(es, index, buffer.Length, data) {
        ReadAnswers(es, index, buffer.Length, data);
      }
    }
    n := buffer.Length;
    ok := stale;
    match es[0] {
      case NoMailbox =>
      case Silence => ok := false;
      case Reply(f) =>
        ok := f.body[..2] == Le16(index);
        if ok && Expedited(f.command) {
          var size := ExpeditedSize(f.command);
          ok := buffer.Length >= size;
          if ok {
            CopyTo(buffer, 0, f.body[3..3 + size]);
            n := size;
          }
        } else if ok {
          var total := Value32(f.body[3..7]);
          ok := total <= buffer.Length;
          if ok && f.length - 10 < total {
            CopyTo(buffer, 0, FirstPart(f));
            assert buffer[..f.length - 10] == FirstPart(f);
            ok, n := ReadSegments(es[1..], buffer, f.length - 10);
          } else if ok {
            CopyTo(buffer, 0, FirstPart(f)[..total]);
            n := total;
          }
        }
    }
  }

  method ReadSegments(es: seq<Event>, buffer: array<byte>, start: nat) returns (ok: bool, n: nat)
    requires SoundSegments(es) && start + Gathered(es) <= buffer.Length
    modifies buffer
    ensures ok <==> Collect(es, old(buffer[..start]), true).Data?
    ensures ok ==> n <= buffer.Length && buffer[..n] == Collect(es, old(buffer[..start]), true).data
  {
    var i := 0;
    n := start;
    var good := true;
    while i < |es|
      invariant i <= |es| && n + Gathered(es[i..]) <= buffer.Length
      invariant Collect(es, old(buffer[..start]), true) == Collect(es[i..], buffer[..n], good)
    {
      var e := es[i];
      assert es[i..][0] == e && es[i..][1..] == es[i + 1..];
      if e.NoMailbox? {
        return good, n;
      }
      good := e.Reply?;
      if e.Reply? {
        if !SegmentReply(e.frame.command) {
          return false, n;
        }
        CopyTo(buffer, n, Payload(e.frame));
        n := n + SegmentSize(e.frame);
        if LastSegment(e.frame.command) {
          return true, n;
        }
      }
      i := i + 1;
    }
    ok := false;
  }
}
