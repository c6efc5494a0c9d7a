/** Reading the section list of an EEPROM: finding a section, and adding up the process data
    objects of one.

    Addresses and sizes have the program's sixteen bits: a negative address is, to the reader of a
    byte, one beyond the end.  The reader gives 0xff behind the end of what can be read.
  */
module SiiWalk {
  import opened Bytes

  const EC_MAXSM := 8
  const EC_MAXEEPDO := 0x200
  const EC_MAXEEPBUF := 4096
  const ECT_SII_START := 0x40
  const ECT_SII_PDO := 50

  // ----- Well-formed images -----

  /** A section: its category and its contents, a whole number of words. */
  datatype Section = Section(cat: nat, data: seq<byte>)

  /** A process data object: what is before and behind its entries' bit lengths does not matter here. */
  datatype Entry = Entry(head: seq<byte>, bits: byte, tail: seq<byte>)

  datatype Pdo = Pdo(index: nat, sm: byte, rest: seq<byte>, entries: seq<Entry>)

  predicate WellFormed(s: Section)
  {
    s.cat < 0xffff && |s.data| % 2 == 0 && |s.data| / 2 < 0x1_0000
  }

  predicate AllWellFormed(ss: seq<Section>)
  {
    forall i :: 0 <= i < |ss| ==> WellFormed(ss[i])
  }

  predicate EntryOk(e: Entry)
  {
    |e.head| == 5 && |e.tail| == 2
  }

  predicate PdoOk(p: Pdo)
  {
    && p.index < 0x1_0000 && |p.rest| == 4 && |p.entries| < 256
    && forall i :: 0 <= i < |p.entries| ==> EntryOk(p.entries[i])
  }

  function EncodeSections(ss: seq<Section>): seq<byte>
  {
    if ss == [] then [0xff, 0xff]
    else Le16(ss[0].cat) + Le16(|ss[0].data| / 2) + ss[0].data + EncodeSections(ss[1..])
  }

  function EncodeEntries(es: seq<Entry>): seq<byte>
  {
    if es == [] then [] else es[0].head + [es[0].bits] + es[0].tail + EncodeEntries(es[1..])
  }

  function EncodePdos(ps: seq<Pdo>): seq<byte>
    requires forall i :: 0 <= i < |ps| ==> PdoOk(ps[i])
  {
    if ps == [] then []
    else
      assert PdoOk(ps[0]);
      var count: byte := |ps[0].entries|;
      Le16(ps[0].index) + [count, ps[0].sm] + ps[0].rest + EncodeEntries(ps[0].entries) + EncodePdos(ps[1..])
  }

  /** The bytes at `a` are `data`. */
  predicate Holds(rom: seq<byte>, a: nat, data: seq<byte>)
  {
    a + |data| <= |rom| && rom[a..a + |data|] == data
  }

  lemma {:induction false} HoldsParts(rom: seq<byte>, a: nat, x: seq<byte>, y: seq<byte>)
    requires Holds(rom, a, x + y)
    ensures Holds(rom, a, x) && Holds(rom, a + |x|, y)
  {
    assert rom[a..a + |x|] == rom[a..a + |x + y|][..|x|] == x;
    assert rom[a + |x|..a + |x| + |y|] == rom[a..a + |x + y|][|x|..] == y;
  }

  lemma {:induction false} HoldsRoom(rom: seq<byte>, a: nat, x: seq<byte>)
    requires Holds(rom, a, x)
    ensures a + |x| <= |rom|
  {
  }

  lemma {:induction false} HoldsByte(rom: seq<byte>, a: nat, x: byte)
    requires Holds(rom, a, [x])
    ensures a < |rom| && rom[a] == x
  {
    assert rom[a] == rom[a..a + 1][0];
  }

  lemma {:induction false} HoldsWord(rom: seq<byte>, a: nat, w: nat)
    requires Holds(rom, a, Le16(w)) && w < 0x1_0000
    ensures a + 2 <= |rom| && Word(rom, a) == w
  {
    WordRoundTrip(w);
    assert rom[a] == rom[a..a + 2][0] && rom[a + 1] == rom[a..a + 2][1];
  }

  // ----- Reading -----

  const WORD := 0x1_0000

  /** Sixteen bits. */
  function Wrap(x: nat): (w: nat)
    ensures w < WORD && (x < WORD ==> w == x)
  {
    x % WORD
  }

  lemma {:induction false} AddWraps(a: nat, b: nat)
    ensures Wrap(Wrap(a) + b) == Wrap(a + b)
  {
  }

  /** An EEPROM as the byte reader shows it. */
  function SiiByte(rom: seq<byte>, a: nat): byte
  {
    if a < |rom| && a < EC_MAXEEPBUF then rom[a] else 0xff
  }

  function SiiWord(rom: seq<byte>, a: nat): (w: nat)
    ensures w < WORD
  {
    SiiByte(rom, a) as int + 256 * SiiByte(rom, Wrap(a + 1)) as int
  }

  lemma {:induction false} WordInside(rom: seq<byte>, a: nat)
    requires a + 2 <= |rom| && a + 2 <= EC_MAXEEPBUF
    ensures SiiWord(rom, a) == Word(rom, a)
  {
  }

  lemma {:induction false} WordBeyond(rom: seq<byte>, a: nat)
    requires EC_MAXEEPBUF <= a < WORD - 1
    ensures SiiWord(rom, a) == 0xffff
  {
  }

  /** A word read byte by byte at `a`, which moves on. */
  method ReadWord(rom: seq<byte>, a: nat) returns (p: nat, next: nat)
    ensures p == SiiWord(rom, a) && next == Wrap(a + 2)
  {
    next := a;
    p := SiiByte(rom, next);
    next := Wrap(next + 1);
    p := p + 256 * SiiByte(rom, next);
    AddWraps(a + 1, 1);
    next := Wrap(next + 1);
  }

  // ----- The walk over the sections -----

  /** Where the walk is after `k` sections of an image, well formed or not. */
  function Walk(rom: seq<byte>, k: nat): (a: nat)
    ensures a < WORD
  {
    if k == 0 then 2 * ECT_SII_START
    else var a := Walk(rom, k - 1); Wrap(a + 4 + 2 * SiiWord(rom, Wrap(a + 2)))
  }

  predicate Stops(rom: seq<byte>, cat: nat, k: nat)
  {
    SiiWord(rom, Walk(rom, k)) == cat || SiiWord(rom, Walk(rom, k)) == 0xffff
  }

  predicate FirstStop(rom: seq<byte>, cat: nat, k: nat)
  {
    Stops(rom, cat, k) && forall j :: 0 <= j < k ==> !Stops(rom, cat, j)
  }

  /** What is found where the walk stops: the address of a length word, or 0. */
  function Found(rom: seq<byte>, cat: nat, k: nat): nat
  {
    if SiiWord(rom, Walk(rom, k)) == cat then Wrap(Walk(rom, k) + 2) else 0
  }

  /** Finds the first section of a category in any image on which the walk comes to an end. */
  method SiiFind(rom: seq<byte>, cat: nat) returns (a: nat)
    requires exists stop: nat :: Stops(rom, cat, stop)
    ensures exists k: nat :: FirstStop(rom, cat, k) && a == Found(rom, cat, k)
  {
    hide SiiWord, Wrap;
    ghost var stop: nat :| Stops(rom, cat, stop);
    var p: nat;
    ghost var k := 0;
    a := 2 * ECT_SII_START;
    p, a := ReadWord(rom, a);
    while p != cat && p != 0xffff
      invariant k <= stop && p == SiiWord(rom, Walk(rom, k)) && a == Wrap(Walk(rom, k) + 2)
      invariant forall j :: 0 <= j < k ==> !Stops(rom, cat, j)
      decreases stop - k
    {
      p, a := ReadWord(rom, a);
      a := Wrap(a + 2 * p);
      WalkNext(rom, k);
      k := k + 1;
      p, a := ReadWord(rom, a);
    }
    if p != cat {
      a := 0;
    }
    assert FirstStop(rom, cat, k);
  }

  lemma {:induction false} WalkNext(rom: seq<byte>, k: nat)
    ensures var at := Wrap(Walk(rom, k) + 2);
            Walk(rom, k + 1) == Wrap(Wrap(at + 2) + 2 * SiiWord(rom, at))
  {
    hide SiiWord, Wrap;
    var a := Walk(rom, k);
    var at := Wrap(a + 2);
    AddWraps(a + 2, 2);
    AddWraps(a + 4, 2 * SiiWord(rom, at));
  }

  // ----- The walk over a well-formed image -----

  /** Where section `k` begins when the first begins at `a`. */
  function SectionAt(a: nat, ss: seq<Section>, k: nat): nat
    requires k <= |ss|
  {
    if k == 0 then a else SectionAt(a, ss, k - 1) + 4 + |ss[k - 1].data|
  }

  lemma {:induction false} SectionAtLater(a: nat, ss: seq<Section>, k: nat)
    requires 0 < k <= |ss|
    ensures SectionAt(a, ss, k) == SectionAt(a + 4 + |ss[0].data|, ss[1..], k - 1)
    decreases k
  {
    if k > 1 {
      SectionAtLater(a, ss, k - 1);
    }
  }

  /** What an image with the encoded sections at `a` holds at each of them, and at the end. */
  lemma {:induction false} SectionHolds(rom: seq<byte>, a: nat, ss: seq<Section>, k: nat)
    requires Holds(rom, a, EncodeSections(ss)) && k <= |ss| && AllWellFormed(ss)
    ensures var at := SectionAt(a, ss, k);
            if k == |ss| then at + 2 <= |rom| && Word(rom, at) == 0xffff
            else at + 4 + |ss[k].data| + 2 <= |rom| && Word(rom, at) == ss[k].cat
                 && Word(rom, at + 2) == |ss[k].data| / 2
                 && Holds(rom, at + 4, ss[k].data)
    decreases k
  {
    hide Holds, EncodeSections, Word, Le16;
    if ss == [] {
      NoSections(rom, a);
    } else {
      SplitSection(rom, a, ss);
      if k > 0 {
        SectionAtLater(a, ss, k);
        SectionHolds(rom, a + 4 + |ss[0].data|, ss[1..], k - 1);
      }
    }
  }

  lemma {:induction false} NoSections(rom: seq<byte>, a: nat)
    requires Holds(rom, a, EncodeSections([]))
    ensures a + 2 <= |rom| && Word(rom, a) == 0xffff
  {
    assert [0xff, 0xff] == Le16(0xffff);
    HoldsWord(rom, a, 0xffff);
  }

  lemma {:induction false} SplitSection(rom: seq<byte>, a: nat, ss: seq<Section>)
    requires Holds(rom, a, EncodeSections(ss)) && ss != [] && WellFormed(ss[0])
    ensures a + 4 + |ss[0].data| + 2 <= |rom| && Word(rom, a) == ss[0].cat && Word(rom, a + 2) == |ss[0].data| / 2
    ensures Holds(rom, a + 4, ss[0].data) && Holds(rom, a + 4 + |ss[0].data|, EncodeSections(ss[1..]))
  {
    hide Holds, Word;
    var cat, len, data, rest := Le16(ss[0].cat), Le16(|ss[0].data| / 2), ss[0].data, EncodeSections(ss[1..]);
    assert EncodeSections(ss) == cat + (len + (data + rest));
    HoldsParts(rom, a, cat, len + (data + rest));
    HoldsParts(rom, a + 2, len, data + rest);
    HoldsParts(rom, a + 4, data, rest);
    HoldsWord(rom, a, ss[0].cat);
    HoldsWord(rom, a + 2, |data| / 2);
    EndRoom(rom, a + 4 + |data|, ss[1..]);
  }

  lemma {:induction false} EndRoom(rom: seq<byte>, a: nat, ss: seq<Section>)
    requires Holds(rom, a, EncodeSections(ss))
    ensures a + 2 <= |rom|
  {
  }

  /** The number of the first section of a category, or how many sections there are. */
  function FirstOf(ss: seq<Section>, cat: nat): (k: nat)
    ensures k <= |ss| && (k < |ss| ==> ss[k].cat == cat) && forall i :: 0 <= i < k ==> ss[i].cat != cat
  {
    if ss == [] then 0 else if ss[0].cat == cat then 0 else 1 + FirstOf(ss[1..], cat)
  }

  lemma {:induction false} FirstIs(ss: seq<Section>, cat: nat, k: nat)
    requires k <= |ss| && (k < |ss| ==> ss[k].cat == cat) && forall i :: 0 <= i < k ==> ss[i].cat != cat
    ensures FirstOf(ss, cat) == k
  {
  }

  /** Sections begin at even addresses. */
  lemma {:induction false} SectionAtEven(a: nat, ss: seq<Section>, k: nat)
    requires AllWellFormed(ss) && k <= |ss| && a % 2 == 0
    ensures SectionAt(a, ss, k) % 2 == 0
    decreases k
  {
    hide AllWellFormed, SectionAt;
    SectionAtNext(a, ss, k);
    if k > 0 {
      IsWellFormed(ss, k - 1);
      SectionAtEven(a, ss, k - 1);
    }
  }

  lemma {:induction false} SectionAtNext(a: nat, ss: seq<Section>, k: nat)
    requires k <= |ss|
    ensures SectionAt(a, ss, k) == if k == 0 then a else SectionAt(a, ss, k - 1) + 4 + |ss[k - 1].data|
  {
  }

  lemma {:induction false} IsWellFormed(ss: seq<Section>, k: nat)
    requires AllWellFormed(ss) && k < |ss|
    ensures |ss[k].data| % 2 == 0
  {
    assert WellFormed(ss[k]);
  }

  lemma {:induction false} SectionAtGrows(a: nat, ss: seq<Section>, j: nat, k: nat)
    requires j <= k <= |ss|
    ensures SectionAt(a, ss, j) + 4 * (k - j) <= SectionAt(a, ss, k)
    decreases k
  {
    hide SectionAt;
    if j < k {
      SectionAtNext(a, ss, k);
      SectionAtGrows(a, ss, j, k - 1);
    }
  }

  /** Where section `k` of an image begins. */
  function At(ss: seq<Section>, k: nat): nat
    requires k <= |ss|
  {
    SectionAt(2 * ECT_SII_START, ss, k)
  }

  /** An image with these sections. */
  predicate IsImage(rom: seq<byte>, ss: seq<Section>)
  {
    Holds(rom, 2 * ECT_SII_START, EncodeSections(ss)) && AllWellFormed(ss)
  }

  /** The walk follows the sections as long as the buffer holds their headers. */
  lemma {:induction false} WalkFollows(rom: seq<byte>, ss: seq<Section>, k: nat)
    requires IsImage(rom, ss) && k <= |ss| && (k > 0 ==> At(ss, k - 1) + 4 <= EC_MAXEEPBUF)
    ensures Walk(rom, k) == Wrap(At(ss, k))
    decreases k
  {
    hide SiiWord, Wrap, EncodeSections, Holds, Word;
    if k > 0 {
      var at := At(ss, k - 1);
      if k > 1 {
        SectionAtGrows(2 * ECT_SII_START, ss, k - 2, k - 1);
      }
      WalkFollows(rom, ss, k - 1);
      SectionHolds(rom, 2 * ECT_SII_START, ss, k - 1);
      WordInside(rom, at + 2);
      assert WellFormed(ss[k - 1]);
    }
  }

  /** A section whose category the buffer holds stops the walk if its category is the one looked
      for, and the end mark always does. */
  lemma {:induction false} StopsAt(rom: seq<byte>, cat: nat, ss: seq<Section>, k: nat)
    requires IsImage(rom, ss) && k <= |ss| && At(ss, k) + 2 <= EC_MAXEEPBUF && cat < 0xffff
    ensures Walk(rom, k) == At(ss, k)
    ensures SiiWord(rom, Walk(rom, k)) == if k < |ss| then ss[k].cat else 0xffff
    ensures Stops(rom, cat, k) <==> k == |ss| || ss[k].cat == cat
  {
    hide SiiWord, Wrap, EncodeSections, Holds, Word;
    if k > 0 {
      SectionAtGrows(2 * ECT_SII_START, ss, k - 1, k);
    }
    WalkFollows(rom, ss, k);
    SectionHolds(rom, 2 * ECT_SII_START, ss, k);
    WordInside(rom, At(ss, k));
    if k < |ss| {
      assert WellFormed(ss[k]);
    }
  }

  /** The buffer holds the category of the first section of that category. */
  predicate Inside(ss: seq<Section>, cat: nat)
  {
    FirstOf(ss, cat) < |ss| && At(ss, FirstOf(ss, cat)) + 2 <= EC_MAXEEPBUF
  }

  /** The step that leaves the buffer does not, on sixteen bits, lead back into it.  (A section that
      begins at 4094 has its length word behind the buffer, and the walk goes on at 4096.) */
  predicate NoWrap(ss: seq<Section>)
  {
    forall k :: 0 < k <= |ss| && At(ss, k - 1) + 4 <= EC_MAXEEPBUF <= At(ss, k) ==> EC_MAXEEPBUF <= Wrap(At(ss, k))
  }

  lemma {:induction false} FoundInside(rom: seq<byte>, cat: nat, ss: seq<Section>)
    requires IsImage(rom, ss) && cat < 0xffff && Inside(ss, cat)
    ensures FirstStop(rom, cat, FirstOf(ss, cat)) && Found(rom, cat, FirstOf(ss, cat)) == At(ss, FirstOf(ss, cat)) + 2
  {
    hide IsImage, SiiWord, Stops, SectionAt, Walk;
    var k := FirstOf(ss, cat);
    forall j | 0 <= j <= k
      ensures Stops(rom, cat, j) <==> j == k
    {
      Images(rom, ss);
      SectionAtGrows(2 * ECT_SII_START, ss, j, k);
      StopsAt(rom, cat, ss, j);
    }
    StopsAt(rom, cat, ss, k);
  }

  lemma {:induction false} Images(rom: seq<byte>, ss: seq<Section>)
    requires IsImage(rom, ss)
    ensures AllWellFormed(ss)
  {
  }

  /** The number of the first section, or end mark, that begins behind the buffer. */
  lemma {:induction false} FirstBehind(ss: seq<Section>, k: nat) returns (q: nat)
    requires AllWellFormed(ss) && k <= |ss| && At(ss, k) >= EC_MAXEEPBUF
    ensures 0 < q <= k && At(ss, q - 1) + 2 <= EC_MAXEEPBUF <= At(ss, q)
    decreases k
  {
    if At(ss, k - 1) >= EC_MAXEEPBUF {
      q := FirstBehind(ss, k - 1);
    } else {
      SectionAtEven(2 * ECT_SII_START, ss, k - 1);
      q := k;
    }
  }

  lemma {:induction false} EvenWraps(x: nat)
    requires x % 2 == 0
    ensures Wrap(x) % 2 == 0
  {
  }

  lemma {:induction false} LeavesBuffer(rom: seq<byte>, ss: seq<Section>, q: nat)
    requires IsImage(rom, ss) && NoWrap(ss) && 0 < q <= |ss| && At(ss, q - 1) + 2 <= EC_MAXEEPBUF <= At(ss, q)
    ensures SiiWord(rom, Walk(rom, q)) == 0xffff
  {
    hide EncodeSections, Holds, SiiWord, Wrap, SectionAt, AllWellFormed;
    Images(rom, ss);
    SectionAtEven(2 * ECT_SII_START, ss, q - 1);
    SectionAtEven(2 * ECT_SII_START, ss, q);
    if At(ss, q - 1) + 4 <= EC_MAXEEPBUF {
      WalkFollows(rom, ss, q);
      EvenWraps(At(ss, q));
      WordBeyond(rom, Walk(rom, q));
    } else {
      StopsAt(rom, 0, ss, q - 1);
      LastHeader(rom, q);
    }
  }

  /** A section whose category is the last word of the buffer. */
  lemma {:induction false} LastHeader(rom: seq<byte>, q: nat)
    requires q > 0 && Walk(rom, q - 1) == EC_MAXEEPBUF - 2
    ensures SiiWord(rom, Walk(rom, q)) == 0xffff
  {
    WordBeyond(rom, EC_MAXEEPBUF);
    assert Walk(rom, q) == Wrap(EC_MAXEEPBUF + 2 + 2 * 0xffff) == EC_MAXEEPBUF;
  }

  lemma {:induction false} FoundNot(rom: seq<byte>, cat: nat, ss: seq<Section>) returns (k: nat)
    requires IsImage(rom, ss) && cat < 0xffff && !Inside(ss, cat) && NoWrap(ss)
    ensures FirstStop(rom, cat, k) && Found(rom, cat, k) == 0
  {
    hide IsImage, SiiWord, SectionAt, Walk, NoWrap;
    Images(rom, ss);
    SectionAtEven(2 * ECT_SII_START, ss, |ss|);
    k := |ss|;
    if At(ss, |ss|) >= EC_MAXEEPBUF {
      k := FirstBehind(ss, |ss|);
      LeavesBuffer(rom, ss, k);
    } else {
      StopsAt(rom, cat, ss, k);
    }
    forall j | 0 <= j < k
      ensures !Stops(rom, cat, j)
    {
      SectionAtGrows(2 * ECT_SII_START, ss, j, k - 1);
      SectionAtGrows(2 * ECT_SII_START, ss, j, k);
      StopsAt(rom, cat, ss, j);
      if ss[j].cat == cat {
        SectionAtGrows(2 * ECT_SII_START, ss, FirstOf(ss, cat), j);
      }
    }
  }

  /** On an encoded image of any length the walk ends at the first section of the category if the
      buffer holds its header, and otherwise with 0. */
  lemma {:induction false} FindInImage(rom: seq<byte>, cat: nat, ss: seq<Section>) returns (k: nat)
    requires IsImage(rom, ss) && cat < 0xffff && (Inside(ss, cat) || NoWrap(ss))
    ensures FirstStop(rom, cat, k)
    ensures Found(rom, cat, k) == if Inside(ss, cat) then At(ss, FirstOf(ss, cat)) + 2 else 0
  {
    if Inside(ss, cat) {
      k := FirstOf(ss, cat);
      FoundInside(rom, cat, ss);
    } else {
      k := FoundNot(rom, cat, ss);
    }
  }

  /** A section that the image has and the walk does not find. */
  lemma {:induction false} BehindTheBuffer(rom: seq<byte>) returns (k: nat)
    requires Holds(rom, 2 * ECT_SII_START, EncodeSections([Section(10, Zeros(4000)), Section(ECT_SII_PDO, [])]))
    ensures FirstOf([Section(10, Zeros(4000)), Section(ECT_SII_PDO, [])], ECT_SII_PDO) == 1
    ensures FirstStop(rom, ECT_SII_PDO, k) && Found(rom, ECT_SII_PDO, k) == 0
  {
    hide Holds, EncodeSections, FirstStop, Found;
    var ss := [Section(10, Zeros(4000)), Section(ECT_SII_PDO, [])];
    FirstIs(ss, ECT_SII_PDO, 1);
    assert At(ss, 0) == 128 && At(ss, 1) == 4132 && At(ss, 2) == 4136;
    k := FindInImage(rom, ECT_SII_PDO, ss);
  }

  /** And an image on which the walk has no end: its section ends, on sixteen bits, where it
      begins. */
  lemma {:induction false} WalkForEver(rom: seq<byte>, cat: nat, s: Section, k: nat)
    requires IsImage(rom, [s]) && |s.data| == 65532 && s.cat != cat < 0xffff
    ensures Walk(rom, k) == 2 * ECT_SII_START && !Stops(rom, cat, k)
    decreases k
  {
    hide EncodeSections, Holds, SiiWord, Wrap;
    StopsAt(rom, cat, [s], 0);
    if k > 0 {
      WalkForEver(rom, cat, s, k - 1);
      WalkFollows(rom, [s], 1);
      assert At([s], 1) == WORD + 2 * ECT_SII_START;
      Around();
    }
  }

  lemma {:induction false} Around()
    ensures Wrap(WORD + 2 * ECT_SII_START) == 2 * ECT_SII_START
  {
  }

  // ----- Process data objects -----

  lemma {:induction false} EntriesLength(es: seq<Entry>)
    requires forall i :: 0 <= i < |es| ==> EntryOk(es[i])
    ensures |EncodeEntries(es)| == 8 * |es|
    decreases es
  {
    if es != [] {
      assert EntryOk(es[0]);
      EntriesLength(es[1..]);
    }
  }

  /** The bit length of entry `k` is its sixth byte. */
  lemma {:induction false} EntryHolds(rom: seq<byte>, a: nat, es: seq<Entry>, k: nat)
    requires Holds(rom, a, EncodeEntries(es)) && k < |es| && forall i :: 0 <= i < |es| ==> EntryOk(es[i])
    ensures a + 8 * k + 8 <= |rom| && rom[a + 8 * k + 5] == es[k].bits
    decreases k
  {
    SplitEntry(rom, a, es);
    hide Holds, EncodeEntries;
    if k > 0 {
      EntryHolds(rom, a + 8, es[1..], k - 1);
    }
  }

  lemma {:induction false} SplitEntry(rom: seq<byte>, a: nat, es: seq<Entry>)
    requires Holds(rom, a, EncodeEntries(es)) && es != [] && EntryOk(es[0])
    ensures a + 8 <= |rom| && rom[a + 5] == es[0].bits && Holds(rom, a + 8, EncodeEntries(es[1..]))
  {
    hide Holds;
    var head, bits, tail, rest := es[0].head, [es[0].bits], es[0].tail, EncodeEntries(es[1..]);
    assert EncodeEntries(es) == head + (bits + (tail + rest));
    HoldsParts(rom, a, head, bits + (tail + rest));
    HoldsParts(rom, a + 5, bits, tail + rest);
    HoldsParts(rom, a + 6, tail, rest);
    HoldsByte(rom, a + 5, es[0].bits);
    HoldsRoom(rom, a + 8, rest);
  }

  predicate AllPdosOk(ps: seq<Pdo>)
  {
    forall i :: 0 <= i < |ps| ==> PdoOk(ps[i])
  }

  lemma {:induction false} SplitPdo(rom: seq<byte>, a: nat, ps: seq<Pdo>)
    requires AllPdosOk(ps) && ps != [] && Holds(rom, a, EncodePdos(ps))
    ensures var p := ps[0];
            var next := a + 8 + 8 * |p.entries|;
            && next <= |rom| && Word(rom, a) == p.index && rom[a + 2] as int == |p.entries| && rom[a + 3] == p.sm
            && Holds(rom, a + 8, EncodeEntries(p.entries))
            && AllPdosOk(ps[1..]) && Holds(rom, next, EncodePdos(ps[1..]))
  {
    hide Holds, Word, EncodeEntries;
    assert PdoOk(ps[0]);
    var count: byte := |ps[0].entries|;
    var index, four, entries := Le16(ps[0].index), ps[0].rest, EncodeEntries(ps[0].entries);
    var rest := EncodePdos(ps[1..]);
    EntriesLength(ps[0].entries);
    assert EncodePdos(ps) == index + ([count] + ([ps[0].sm] + (four + (entries + rest))));
    HoldsParts(rom, a, index, [count] + ([ps[0].sm] + (four + (entries + rest))));
    HoldsParts(rom, a + 2, [count], [ps[0].sm] + (four + (entries + rest)));
    HoldsParts(rom, a + 3, [ps[0].sm], four + (entries + rest));
    HoldsParts(rom, a + 4, four, entries + rest);
    HoldsParts(rom, a + 8, entries, rest);
    HoldsWord(rom, a, ps[0].index);
    HoldsByte(rom, a + 2, count);
    HoldsByte(rom, a + 3, ps[0].sm);
    HoldsRoom(rom, a + 8, entries);
  }

  lemma {:induction false} PdosLength(ps: seq<Pdo>)
    requires AllPdosOk(ps)
    ensures |EncodePdos(ps)| % 8 == 0 && |EncodePdos(ps)| >= 8 * |ps|
    ensures ps != [] ==> |EncodePdos(ps)| == 8 + 8 * |ps[0].entries| + |EncodePdos(ps[1..])|
    decreases ps
  {
    if ps != [] {
      PdosFirst(ps);
      hide EncodePdos;
      PdosLength(ps[1..]);
    } else {
      EmptyLength();
    }
  }

  lemma {:induction false} PdosFirst(ps: seq<Pdo>)
    requires AllPdosOk(ps) && ps != []
    ensures AllPdosOk(ps[1..]) && |EncodePdos(ps)| == 8 + 8 * |ps[0].entries| + |EncodePdos(ps[1..])|
  {
    hide EncodeEntries;
    assert PdoOk(ps[0]);
    EntriesLength(ps[0].entries);
  }

  function Bits(es: seq<Entry>): nat
  {
    if es == [] then 0 else Bits(es[..|es| - 1]) + es[|es| - 1].bits as int
  }

  // ----- The objects of any image -----

  /** A process data object in the table: bits are counted if its sync manager is in range. */
  datatype Obj = Obj(index: nat, sm: nat, bits: nat)

  /** Bits of the first `n` entries from `a` on. */
  function EntryBits(rom: seq<byte>, a: nat, n: nat): (bits: nat)
    ensures bits <= 255 * n
  {
    if n == 0 then 0 else EntryBits(rom, a, n - 1) + SiiByte(rom, Wrap(a + 8 * (n - 1) + 5)) as int
  }

  function EntryCount(rom: seq<byte>, a: nat): nat
  {
    SiiByte(rom, Wrap(a + 2))
  }

  function ObjAt(rom: seq<byte>, a: nat): (o: Obj)
    ensures o.bits < WORD
  {
    var sm: nat := SiiByte(rom, Wrap(a + 3));
    Obj(SiiWord(rom, a), sm, if sm < EC_MAXSM then EntryBits(rom, Wrap(a + 8), EntryCount(rom, a)) else 0)
  }

  /** Where the next object is, and the words counted so far. */
  function NextAt(rom: seq<byte>, a: nat): nat
  {
    Wrap(a + 8 + 8 * EntryCount(rom, a))
  }

  function NextCount(rom: seq<byte>, a: nat, c: nat): nat
  {
    Wrap(c + 4 + 4 * EntryCount(rom, a))
  }

  /** The objects read from `a` on with `c` words counted: one at least, `room` at most, and no more
      when the count has come to `length`. */
  function Objects(rom: seq<byte>, a: nat, c: nat, length: nat, room: nat): (objs: seq<Obj>)
    requires room > 0
    ensures 0 < |objs| <= room
    decreases room
  {
    [ObjAt(rom, a)]
    + if room == 1 || NextCount(rom, a, c) >= length then []
      else Objects(rom, NextAt(rom, a), NextCount(rom, a, c), length, room - 1)
  }

  /** The objects of the section whose length word is at `found`, none if it is 0. */
  function Listed(rom: seq<byte>, found: nat): seq<Obj>
  {
    if found == 0 then [] else Objects(rom, Wrap(found + 2), 1, SiiWord(rom, found), EC_MAXEEPDO - 1)
  }

  /** Receive objects are in sections of category 50, transmit objects in those of category 51. */
  function Category(t: nat): (c: nat)
    ensures t == 0 ==> c == 50
    ensures t > 0 ==> c == 51
  {
    ECT_SII_PDO + if t > 1 then 1 else t
  }

  // ----- Adding up -----

  function Total(objs: seq<Obj>): nat
  {
    if objs == [] then 0 else Total(objs[..|objs| - 1]) + objs[|objs| - 1].bits
  }

  /** Bits of the objects of one sync manager. */
  function SmTotal(objs: seq<Obj>, sm: nat): nat
  {
    if objs == [] then 0
    else SmTotal(objs[..|objs| - 1], sm) + if objs[|objs| - 1].sm == sm then objs[|objs| - 1].bits else 0
  }

  function SmTotals(objs: seq<Obj>, n: nat): nat
  {
    if n == 0 then 0 else SmTotals(objs, n - 1) + SmTotal(objs, n - 1)
  }

  lemma {:induction false} SmTotalsGrow(objs: seq<Obj>, n: nat)
    requires objs != []
    ensures SmTotals(objs, n) ==
            SmTotals(objs[..|objs| - 1], n) + if objs[|objs| - 1].sm < n then objs[|objs| - 1].bits else 0
    decreases n
  {
    if n > 0 {
      SmTotalsGrow(objs, n - 1);
    }
  }

  lemma {:induction false} NothingMapped(n: nat)
    ensures SmTotals([], n) == 0
    decreases n
  {
    if n > 0 {
      NothingMapped(n - 1);
    }
  }

  predicate InRange(o: Obj)
  {
    o.sm >= EC_MAXSM ==> o.bits == 0
  }

  /** The objects of all sync managers in range have all the bits. */
  lemma {:induction false} TotalIsSum(objs: seq<Obj>)
    requires forall i :: 0 <= i < |objs| ==> InRange(objs[i])
    ensures Total(objs) == SmTotals(objs, EC_MAXSM)
    decreases objs
  {
    if objs == [] {
      NothingMapped(EC_MAXSM);
    } else {
      TotalIsSum(objs[..|objs| - 1]);
      SmTotalsGrow(objs, EC_MAXSM);
      assert InRange(objs[|objs| - 1]);
    }
  }

  lemma {:induction false} ObjectsInRange(rom: seq<byte>, a: nat, c: nat, length: nat, room: nat, i: nat)
    requires room > 0 && i < |Objects(rom, a, c, length, room)|
    ensures InRange(Objects(rom, a, c, length, room)[i])
    decreases i
  {
    hide SiiByte, SiiWord, Wrap, EntryBits, EntryCount, NextAt, NextCount;
    if i > 0 {
      ObjectsInRange(rom, NextAt(rom, a), NextCount(rom, a, c), length, room - 1, i - 1);
    }
  }

  /** Whatever the image, the bits of all objects are those of the sync managers. */
  lemma {:induction false} ListedIsSum(rom: seq<byte>, found: nat)
    ensures Total(Listed(rom, found)) == SmTotals(Listed(rom, found), EC_MAXSM)
  {
    hide Objects, SiiWord, Wrap, Total, SmTotals, InRange;
    var objs := Listed(rom, found);
    forall i | 0 <= i < |objs|
      ensures InRange(objs[i])
    {
      ObjectsInRange(rom, Wrap(found + 2), 1, SiiWord(rom, found), EC_MAXEEPDO - 1, i);
    }
    TotalIsSum(objs);
  }

  lemma {:induction false} TotalNext(objs: seq<Obj>, o: Obj)
    ensures Total(objs + [o]) == Total(objs) + o.bits
    ensures forall sm :: SmTotal(objs + [o], sm) == SmTotal(objs, sm) + if o.sm == sm then o.bits else 0
  {
    assert (objs + [o])[..|objs|] == objs;
  }

  // ----- The objects of an encoded section -----

  function ObjOf(p: Pdo): Obj
  {
    Obj(p.index, p.sm, if p.sm < EC_MAXSM then Bits(p.entries) else 0)
  }

  function ObjsOf(ps: seq<Pdo>): (objs: seq<Obj>)
    ensures |objs| == |ps| && forall i :: 0 <= i < |ps| ==> objs[i] == ObjOf(ps[i])
  {
    if ps == [] then [] else [ObjOf(ps[0])] + ObjsOf(ps[1..])
  }

  lemma {:induction false} EncodedEntries(rom: seq<byte>, a: nat, es: seq<Entry>, n: nat)
    requires Holds(rom, a, EncodeEntries(es)) && forall i :: 0 <= i < |es| ==> EntryOk(es[i])
    requires n <= |es| && a + 8 * |es| <= EC_MAXEEPBUF
    ensures EntryBits(rom, a, n) == Bits(es[..n])
    decreases n
  {
    hide Holds, EncodeEntries;
    if n > 0 {
      EncodedEntries(rom, a, es, n - 1);
      EntryHolds(rom, a, es, n - 1);
      assert es[..n][..n - 1] == es[..n - 1];
    }
  }

  lemma {:induction false} EncodedObj(rom: seq<byte>, a: nat, ps: seq<Pdo>, c: nat)
    requires AllPdosOk(ps) && ps != [] && Holds(rom, a, EncodePdos(ps)) && a + |EncodePdos(ps)| <= EC_MAXEEPBUF
    requires c <= EC_MAXEEPBUF
    ensures var e := |ps[0].entries|;
            && ObjAt(rom, a) == ObjOf(ps[0]) && NextAt(rom, a) == a + 8 + 8 * e && NextCount(rom, a, c) == c + 4 + 4 * e
            && AllPdosOk(ps[1..]) && Holds(rom, a + 8 + 8 * e, EncodePdos(ps[1..]))
            && |EncodePdos(ps)| == 8 + 8 * e + |EncodePdos(ps[1..])|
  {
    hide Holds, EncodePdos, EncodeEntries, Bits, EntryBits, Word;
    var p := ps[0];
    assert PdoOk(p);
    SplitPdo(rom, a, ps);
    PdosLength(ps);
    WordInside(rom, a);
    EncodedEntries(rom, a + 8, p.entries, |p.entries|);
    assert p.entries[..|p.entries|] == p.entries;
  }

  lemma {:induction false} EmptyLength()
    ensures |EncodePdos([])| == 0
  {
  }

  lemma {:induction false} EncodedObjects(rom: seq<byte>, a: nat, c: nat, length: nat, room: nat, ps: seq<Pdo>)
    requires AllPdosOk(ps) && ps != [] && Holds(rom, a, EncodePdos(ps)) && a + |EncodePdos(ps)| <= EC_MAXEEPBUF
    requires c >= 1 && length == c - 1 + |EncodePdos(ps)| / 2 && length <= EC_MAXEEPBUF && room >= |ps|
    ensures Objects(rom, a, c, length, room) == ObjsOf(ps)
    decreases ps
  {
    hide Holds, EncodePdos, AllPdosOk, ObjAt, NextAt, NextCount, ObjOf, Wrap;
    PdosLength(ps);
    EncodedObj(rom, a, ps, c);
    PdosLength(ps[1..]);
    if |ps| > 1 {
      EncodedObjects(rom, NextAt(rom, a), NextCount(rom, a, c), length, room - 1, ps[1..]);
    } else {
      EmptyLength();
      assert ps[1..] == [];
    }
  }

  lemma {:induction false} StartsAt(ss: seq<Section>)
    ensures At(ss, 0) == 2 * ECT_SII_START
  {
  }

  lemma {:induction false} ListedFrom(rom: seq<byte>, found: nat, ps: seq<Pdo>)
    requires found > 0 && AllPdosOk(ps) && Holds(rom, found + 2, EncodePdos(ps)) && |ps| <= EC_MAXEEPDO - 1
    requires found + 2 + |EncodePdos(ps)| <= EC_MAXEEPBUF && SiiWord(rom, found) == |EncodePdos(ps)| / 2
    ensures Listed(rom, found) == ObjsOf(ps) <==> ps != []
    ensures ps == [] ==> |Listed(rom, found)| == 1
  {
    hide Holds, EncodePdos, SiiWord, ObjAt, ObjsOf, NextAt;
    if ps != [] {
      EncodedObjects(rom, found + 2, 1, |EncodePdos(ps)| / 2, EC_MAXEEPDO - 1, ps);
    } else {
      EmptyLength();
      assert NextCount(rom, found + 2, 1) >= 0;
    }
  }

  /** On an encoded image whose section of objects lies in the buffer, exactly its objects are
      listed, each once, if and only if there are any: for a section of none one is read from what
      follows. */
  lemma {:induction false} ObjectsListed(rom: seq<byte>, t: nat, ss: seq<Section>, ps: seq<Pdo>) returns (k: nat)
    requires IsImage(rom, ss) && AllPdosOk(ps) && FirstOf(ss, Category(t)) < |ss|
    requires var j := FirstOf(ss, Category(t));
             ss[j].data == EncodePdos(ps) && At(ss, j) + 4 + |EncodePdos(ps)| <= EC_MAXEEPBUF
    ensures FirstStop(rom, Category(t), k)
    ensures Listed(rom, Found(rom, Category(t), k)) == ObjsOf(ps) <==> ps != []
    ensures ps == [] ==> |Listed(rom, Found(rom, Category(t), k))| == 1
  {
    hide Holds, EncodeSections, EncodePdos, FirstStop, Found, SectionAt, AllWellFormed, Word, SiiWord, Listed, ObjsOf;
    var j := FirstOf(ss, Category(t));
    k := FindInImage(rom, Category(t), ss);
    var at := At(ss, j);
    SectionHolds(rom, 2 * ECT_SII_START, ss, j);
    Images(rom, ss);
    SectionAtGrows(2 * ECT_SII_START, ss, 0, j);
    StartsAt(ss);
    WordInside(rom, at + 2);
    PdosLength(ps);
    ListedFrom(rom, at + 2, ps);
  }

  /** The table read from a section; entries count from 1. */
  class PdoTable {
    var Startpos: nat
    var Length: nat
    var nPDO: nat
    const Index: array<nat>
    const SyncM: array<nat>
    const BitSize: array<nat>
    const SMbitsize: array<nat>

    ghost predicate Valid()
    {
      && Index.Length == SyncM.Length == BitSize.Length == EC_MAXEEPDO && SMbitsize.Length == EC_MAXSM
      && Index != SyncM && Index != BitSize && Index != SMbitsize
      && SyncM != BitSize && SyncM != SMbitsize && BitSize != SMbitsize
    }

    constructor ()
      ensures Valid() && fresh(Index) && fresh(SyncM) && fresh(BitSize) && fresh(SMbitsize)
    {
      Startpos, Length, nPDO := 0, 0, 0;
      Index := new nat[EC_MAXEEPDO](i => 0);
      SyncM := new nat[EC_MAXEEPDO](i => 0);
      BitSize := new nat[EC_MAXEEPDO](i => 0);
      SMbitsize := new nat[EC_MAXSM](i => 0);
    }

    /** The table lists these objects. */
    ghost predicate Lists(objs: seq<Obj>)
      requires Valid()
      reads this, Index, SyncM, BitSize, SMbitsize
    {
      && nPDO == |objs| < EC_MAXEEPDO
      && (forall i :: 0 <= i < |objs| ==>
            Index[i + 1] == objs[i].index && SyncM[i + 1] == objs[i].sm && BitSize[i + 1] == objs[i].bits)
      && (forall s :: 0 <= s < EC_MAXSM ==> SMbitsize[s] == Wrap(SmTotal(objs, s)))
    }

    method SetStart(a: nat)
      requires Valid() && Lists([])
      modifies this`Startpos
      ensures Lists([]) && Startpos == a
    {
      Startpos := a;
    }

    method SetLength(w: nat)
      requires Valid() && Lists([])
      modifies this`Length
      ensures Lists([]) && Length == w
    {
      Length := w;
    }

    /** The section at `found` has been read; `size` are the bits of its objects. */
    ghost predicate Read(rom: seq<byte>, found: nat, size: nat)
      requires Valid()
      reads this, Index, SyncM, BitSize, SMbitsize
    {
      Startpos == found && Lists(Listed(rom, found)) && size == Wrap(Total(Listed(rom, found)))
    }

    method Clear()
      requires Valid()
      modifies this, Index, SMbitsize
      ensures Lists([])
    {
      nPDO, Length, Startpos := 0, 0, 0;
      Index[1] := 0;
      for c := 0 to EC_MAXSM
        invariant nPDO == 0 && forall s :: 0 <= s < c ==> SMbitsize[s] == 0
      {
        SMbitsize[c] := 0;
      }
    }

    /** Adds one object to the table. */
    method Add(o: Obj, ghost objs: seq<Obj>)
      requires Valid() && Lists(objs) && nPDO < EC_MAXEEPDO - 1
      modifies this`nPDO, Index, SyncM, BitSize, SMbitsize
      ensures Lists(objs + [o])
    {
      hide Wrap, SmTotal;
      nPDO := nPDO + 1;
      Index[nPDO], SyncM[nPDO], BitSize[nPDO] := o.index, o.sm, o.bits;
      TotalNext(objs, o);
      if o.sm < EC_MAXSM {
        AddWraps(SmTotal(objs, o.sm), o.bits);
        SMbitsize[o.sm] := Wrap(SMbitsize[o.sm] + o.bits);
      }
    }
  }

  /** Adds up the bit lengths of `e` entries, and counts their words. */
  method ReadEntries(rom: seq<byte>, start: nat, words: nat, e: nat) returns (bits: nat, a: nat, c: nat)
    requires start < WORD && words < WORD && e < 256
    ensures bits == EntryBits(rom, start, e) && a == Wrap(start + 8 * e) && c == Wrap(words + 4 * e)
  {
    hide SiiByte, Wrap;
    bits, a, c := 0, start, words;
    for er := 0 to e
      invariant a == Wrap(start + 8 * er) && c == Wrap(words + 4 * er) && bits == EntryBits(rom, start, er)
    {
      AddWraps(words + 4 * er, 4);
      AddWraps(start + 8 * er, 5);
      AddWraps(start + 8 * er + 5, 1);
      AddWraps(start + 8 * er + 6, 2);
      c := Wrap(c + 4);
      a := Wrap(a + 5);
      bits := Wrap(bits + SiiByte(rom, a) as int);
      a := Wrap(a + 1);
      a := Wrap(a + 2);
    }
  }

  lemma {:induction false} PdoSteps(a: nat, c: nat, e: nat)
    ensures Wrap(Wrap(a + 1) + 1) == Wrap(a + 2) && Wrap(Wrap(a + 2) + 1) == Wrap(a + 3)
    ensures Wrap(Wrap(a + 3) + 1) == Wrap(a + 4) && Wrap(Wrap(a + 4) + 4) == Wrap(a + 8)
    ensures Wrap(Wrap(a + 8) + 8 * e) == Wrap(a + 8 + 8 * e)
    ensures Wrap(Wrap(c + 1) + 2) == Wrap(c + 3) && Wrap(Wrap(c + 3) + 4 * e) == Wrap(c + 3 + 4 * e)
    ensures Wrap(Wrap(c + 3 + 4 * e) + 1) == Wrap(c + 4 + 4 * e)
  {
    hide Wrap;
    AddWraps(a + 1, 1);
    AddWraps(a + 2, 1);
    AddWraps(a + 3, 1);
    AddWraps(a + 4, 4);
    AddWraps(a + 8, 8 * e);
    AddWraps(c + 1, 2);
    AddWraps(c + 3, 4 * e);
    AddWraps(c + 3 + 4 * e, 1);
  }

  /** Reads one object at `start`, and says where the next one begins and how many words are counted. */
  method ReadPdo(rom: seq<byte>, start: nat, words: nat) returns (o: Obj, a: nat, c: nat)
    requires start < WORD && words < WORD
    ensures o == ObjAt(rom, start) && a == NextAt(rom, start) && c == NextCount(rom, start, words)
  {
    hide SiiByte, EntryBits, Wrap;
    PdoSteps(start, words, EntryCount(rom, start));
    a, c := start, words;
    var index: nat := SiiByte(rom, a);
    a := Wrap(a + 1);
    index := index + 256 * SiiByte(rom, a);
    a := Wrap(a + 1);
    c := Wrap(c + 1);
    var e: nat := SiiByte(rom, a);
    a := Wrap(a + 1);
    var sm: nat := SiiByte(rom, a);
    a := Wrap(a + 1);
    a := Wrap(a + 4);
    c := Wrap(c + 2);
    var bits := 0;
    if sm < EC_MAXSM {
      bits, a, c := ReadEntries(rom, a, c, e);
      c := Wrap(c + 1);
    } else {
      c := Wrap(c + 4 * e);
      a := Wrap(a + 8 * e);
      c := Wrap(c + 1);
    }
    o := Obj(index, sm, bits);
  }

  lemma {:induction false} ObjectsUnfold(rom: seq<byte>, a: nat, c: nat, length: nat, room: nat)
    requires room > 0
    ensures Objects(rom, a, c, length, room) == [ObjAt(rom, a)]
            + if room == 1 || NextCount(rom, a, c) >= length then []
              else Objects(rom, NextAt(rom, a), NextCount(rom, a, c), length, room - 1)
  {
  }

  /** The objects from `base` on: until the words of the section are counted or the table is full. */
  method ReadPdos(rom: seq<byte>, base: nat, table: PdoTable) returns (size: nat)
    requires base < WORD && table.Valid() && table.Lists([]) && table.Length < WORD
    modifies table`nPDO, table.Index, table.SyncM, table.BitSize, table.SMbitsize
    ensures var objs := Objects(rom, base, 1, table.Length, EC_MAXEEPDO - 1);
            table.Lists(objs) && size == Wrap(Total(objs))
  {
    hide Objects, ObjAt, NextAt, NextCount, Total, Wrap, SmTotal, PdoTable.Lists, InRange, PdoTable.Valid;
    var c: nat, at: nat, more := 1, base, true;
    size := 0;
    ghost var objs: seq<Obj> := [];
    ghost var all := Objects(rom, base, 1, table.Length, EC_MAXEEPDO - 1);
    NothingYet();
    while more
      invariant table.Valid() && table.Lists(objs) && |objs| < EC_MAXEEPDO && size == Wrap(Total(objs))
      invariant at < WORD && c < WORD && (more ==> |objs| < EC_MAXEEPDO - 1)
      invariant all == objs + if more then Objects(rom, at, c, table.Length, EC_MAXEEPDO - 1 - |objs|) else []
      decreases EC_MAXEEPDO - |objs|, more
    {
      ListsBound(table, objs);
      ObjectsUnfold(rom, at, c, table.Length, EC_MAXEEPDO - 1 - |objs|);
      NextSmall(rom, at, c);
      var o;
      o, at, c := ReadPdo(rom, at, c);
      table.Add(o, objs);
      TotalNext(objs, o);
      if o.sm < EC_MAXSM {
        AddWraps(Total(objs), o.bits);
        size := Wrap(size + o.bits);
      }
      objs := objs + [o];
      ListsBound(table, objs);
      if table.nPDO >= EC_MAXEEPDO - 1 {
        c := table.Length;
      }
      more := c < table.Length;
    }
    assert objs + [] == objs;
  }

  lemma {:induction false} NothingYet()
    ensures Total([]) == 0 && Wrap(0) == 0
  {
  }

  lemma {:induction false} NextSmall(rom: seq<byte>, a: nat, c: nat)
    ensures NextAt(rom, a) < WORD && NextCount(rom, a, c) < WORD && InRange(ObjAt(rom, a))
  {
  }

  lemma {:induction false} ListsBound(table: PdoTable, objs: seq<Obj>)
    requires table.Valid() && table.Lists(objs)
    ensures table.nPDO == |objs|
  {
  }

  /** Reads the objects of the section for receive (`t` is 0) or transmit objects of any image on
      which the walk ends into the table, and returns their bits, on 16 bits. */
  method SiiPdo(rom: seq<byte>, table: PdoTable, t: nat) returns (size: nat)
    requires table.Valid() && exists stop: nat :: Stops(rom, Category(t), stop)
    modifies table, table.Index, table.SyncM, table.BitSize, table.SMbitsize
    ensures exists k: nat ::
              FirstStop(rom, Category(t), k) && table.Read(rom, Found(rom, Category(t), k), size)
  {
    hide FirstStop, Found, Stops, Objects, Total, Wrap, SiiWord, SmTotal, PdoTable.Lists;
    size := 0;
    NothingYet();
    table.Clear();
    var which := if t > 1 then 1 else t;
    var a: nat := SiiFind(rom, ECT_SII_PDO + which);
    ghost var found := a;
    table.SetStart(a);
    if a > 0 {
      var w: nat;
      w, a := ReadWord(rom, a);
      table.SetLength(w);
      size := ReadPdos(rom, a, table);
    }
    assert table.Read(rom, found, size);
  }
}
