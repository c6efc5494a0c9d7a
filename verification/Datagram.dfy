/** EtherCAT frames: a chain of datagrams behind one Ethernet header (ETG.1000.4, section 5.4).

    The chain is told by its length words: eleven bits of length, and a bit that says that another
    datagram follows.  The interrupt word of a header is never written and never read.
  */
module Datagram {
  import opened Bytes

  const ETH_HEADERSIZE := 14
  const EC_HEADERSIZE := 12
  const EC_ELENGTHSIZE := 2
  const EC_WKCSIZE := 2
  const EC_ECATTYPE := 0x1000
  const EC_DATAGRAMFOLLOWS := 0x8000
  const EC_BUFSIZE := 1518

  /** A datagram: command, frame index, the two address words, data and working counter. */
  datatype Gram = Gram(com: byte, index: byte, adp: nat, ado: nat, data: seq<byte>, wkc: nat)

  /** Bytes a datagram takes in a frame: header without the frame length, data, working counter. */
  function Size(g: Gram): nat
  {
    EC_HEADERSIZE - EC_ELENGTHSIZE + |g.data| + EC_WKCSIZE
  }

  function Sizes(gs: seq<Gram>): nat
  {
    if gs == [] then 0 else Size(gs[0]) + Sizes(gs[1..])
  }

  /** The bytes at `pos` are datagram `g`, announcing another one if `more`. */
  predicate At(b: seq<byte>, pos: nat, g: Gram, more: bool)
  {
    && pos + Size(g) <= |b| && |g.data| < 0x800
    && b[pos] == g.com && b[pos + 1] == g.index
    && Word(b, pos + 2) == g.adp && Word(b, pos + 4) == g.ado
    && Word(b, pos + 6) == |g.data| + (if more then EC_DATAGRAMFOLLOWS else 0)
    && b[pos + 10..pos + 10 + |g.data|] == g.data
    && Word(b, pos + 10 + |g.data|) == g.wkc
  }

  /** From `pos` on the bytes are the datagrams `gs`, with the follows bits `mores`. */
  predicate Chain(b: seq<byte>, pos: nat, gs: seq<Gram>, mores: seq<bool>)
    decreases gs
  {
    && |gs| == |mores|
    && (gs != [] ==> At(b, pos, gs[0], mores[0]) && Chain(b, pos + Size(gs[0]), gs[1..], mores[1..]))
  }

  // ----- Walking a frame -----

  function DataLength(b: seq<byte>, pos: nat): nat
    requires pos + 8 <= |b|
  {
    Word(b, pos + 6) % 0x800
  }

  predicate Follows(b: seq<byte>, pos: nat)
    requires pos + 8 <= |b|
  {
    Word(b, pos + 6) >= EC_DATAGRAMFOLLOWS
  }

  function Read(b: seq<byte>, pos: nat): Gram
    requires pos + 12 <= |b| && pos + 12 + DataLength(b, pos) <= |b|
  {
    var len := DataLength(b, pos);
    Gram(b[pos], b[pos + 1], Word(b, pos + 2), Word(b, pos + 4), b[pos + 10..pos + 10 + len], Word(b, pos + 10 + len))
  }

  /** The datagrams found from `pos` on by length and follows bit. */
  function Walk(b: seq<byte>, pos: nat): seq<Gram>
    decreases |b| - pos
  {
    if pos + 12 > |b| || pos + 12 + DataLength(b, pos) > |b| then []
    else [Read(b, pos)] + if Follows(b, pos) then Walk(b, pos + 12 + DataLength(b, pos)) else []
  }

  lemma {:induction false} AtReads(b: seq<byte>, pos: nat, g: Gram, more: bool)
    requires At(b, pos, g, more)
    ensures pos + Size(g) <= |b| && DataLength(b, pos) == |g.data| && Follows(b, pos) == more && Read(b, pos) == g
  {
  }

  /** A walk finds the datagrams up to the first that announces no other; so it finds exactly the
      chain when all but the last do. */
  lemma {:induction false} WalkFinds(b: seq<byte>, pos: nat, gs: seq<Gram>, mores: seq<bool>, last: nat)
    requires Chain(b, pos, gs, mores) && last < |gs| && !mores[last]
    requires forall i :: 0 <= i < last ==> mores[i]
    ensures Walk(b, pos) == gs[..last + 1]
    decreases gs
  {
    hide At, Read, DataLength, Follows;
    AtReads(b, pos, gs[0], mores[0]);
    if last > 0 {
      WalkFinds(b, pos + Size(gs[0]), gs[1..], mores[1..], last - 1);
      assert gs[..last + 1] == [gs[0]] + gs[1..][..last];
    } else {
      assert gs[..1] == [gs[0]];
    }
  }

  lemma {:induction false} FirstUnset(mores: seq<bool>) returns (k: nat)
    requires mores != [] && !mores[|mores| - 1]
    ensures k < |mores| && !mores[k] && forall i :: 0 <= i < k ==> mores[i]
  {
    k := 0;
    while mores[k]
      invariant k < |mores| && forall i :: 0 <= i < k ==> mores[i]
      decreases |mores| - k
    {
      k := k + 1;
    }
  }

  /** A chain whose last datagram announces no other is found whole exactly when all others do. */
  lemma {:induction false} WalkExactly(b: seq<byte>, pos: nat, gs: seq<Gram>, mores: seq<bool>)
    requires Chain(b, pos, gs, mores) && gs != [] && |mores| == |gs| && !mores[|gs| - 1]
    ensures Walk(b, pos) == gs <==> forall i :: 0 <= i < |gs| - 1 ==> mores[i]
  {
    hide Chain, Walk;
    var k := FirstUnset(mores);
    WalkFinds(b, pos, gs, mores, k);
    if k == |gs| - 1 {
      assert gs[..k + 1] == gs;
    }
  }

  // ----- Where things are -----

  lemma {:induction false} SizesJoin(gs: seq<Gram>, hs: seq<Gram>)
    ensures Sizes(gs + hs) == Sizes(gs) + Sizes(hs)
    decreases gs
  {
    if gs == [] {
      assert gs + hs == hs;
    } else {
      assert (gs + hs)[1..] == gs[1..] + hs;
      SizesJoin(gs[1..], hs);
    }
  }

  /** Datagram `i` of a chain is where the sizes of those before it put it. */
  lemma {:induction false} ChainAt(b: seq<byte>, pos: nat, gs: seq<Gram>, mores: seq<bool>, i: nat)
    requires Chain(b, pos, gs, mores) && i < |gs|
    ensures At(b, pos + Sizes(gs[..i]), gs[i], mores[i])
    decreases gs
  {
    hide At;
    if i > 0 {
      ChainAt(b, pos + Size(gs[0]), gs[1..], mores[1..], i - 1);
      assert gs[..i][1..] == gs[1..][..i - 1];
    }
  }

  /** The bytes of a chain are all that makes it one. */
  lemma {:induction false} ChainKept(b: seq<byte>, c: seq<byte>, pos: nat, gs: seq<Gram>, mores: seq<bool>)
    requires Chain(b, pos, gs, mores) && |b| == |c| && pos + Sizes(gs) <= |b|
    requires forall k :: pos <= k < pos + Sizes(gs) ==> b[k] == c[k]
    ensures Chain(c, pos, gs, mores)
    decreases gs
  {
    if gs != [] {
      AtKept(b, c, pos, gs[0], mores[0]);
      hide At;
      ChainKept(b, c, pos + Size(gs[0]), gs[1..], mores[1..]);
    }
  }

  lemma {:induction false} AtKept(b: seq<byte>, c: seq<byte>, pos: nat, g: Gram, more: bool)
    requires At(b, pos, g, more) && |b| == |c|
    requires forall k :: pos <= k < pos + Size(g) ==> b[k] == c[k]
    ensures At(c, pos, g, more)
  {
    assert c[pos + 10..pos + 10 + |g.data|] == b[pos + 10..pos + 10 + |g.data|];
  }

  lemma {:induction false} ChainGrows(b: seq<byte>, pos: nat, gs: seq<Gram>, mores: seq<bool>, g: Gram, more: bool)
    requires Chain(b, pos, gs, mores) && At(b, pos + Sizes(gs), g, more)
    ensures Chain(b, pos, gs + [g], mores + [more])
    decreases gs
  {
    hide At;
    var hs, ms := gs + [g], mores + [more];
    if gs == [] {
      assert hs[1..] == [] && ms[1..] == [];
    } else {
      assert hs[1..] == gs[1..] + [g] && ms[1..] == mores[1..] + [more];
      ChainGrows(b, pos + Size(gs[0]), gs[1..], mores[1..], g, more);
    }
  }

  /** Setting the follows bit of the first datagram changes nothing else of the chain. */
  lemma {:induction false} FirstFollows(b: seq<byte>, c: seq<byte>, pos: nat, gs: seq<Gram>, mores: seq<bool>)
    requires Chain(b, pos, gs, mores) && gs != [] && |b| == |c| && pos + Sizes(gs) <= |b|
    requires forall k :: pos <= k < pos + Sizes(gs) && k != pos + 6 && k != pos + 7 ==> b[k] == c[k]
    requires Word(c, pos + 6) == |gs[0].data| + EC_DATAGRAMFOLLOWS
    ensures Chain(c, pos, gs, mores[0 := true])
  {
    assert At(c, pos, gs[0], true) by {
      assert c[pos + 10..pos + 10 + |gs[0].data|] == b[pos + 10..pos + 10 + |gs[0].data|];
    }
    ChainKept(b, c, pos + Size(gs[0]), gs[1..], mores[1..]);
    assert mores[0 := true][1..] == mores[1..];
  }

  // ----- Building a frame -----

  const NOP: byte := 0
  const APRD: byte := 1
  const FPRD: byte := 4
  const BRD: byte := 7
  const LRD: byte := 10

  /** Commands that only read go out with cleared data. */
  function Written(com: byte, data: seq<byte>): (w: seq<byte>)
    ensures |w| == |data|
  {
    if com == NOP || com == APRD || com == FPRD || com == BRD || com == LRD then Zeros(|data|) else data
  }

  /** The transmit buffer of one frame index. */
  class TxBuffer {
    const txbuf: array<byte>
    var txbuflength: nat
    ghost var grams: seq<Gram>
    ghost var mores: seq<bool>

    /** The buffer holds the chain `grams`, the frame length counts it, and its end is known. */
    ghost predicate Valid()
      reads this, txbuf
    {
      && txbuf.Length == EC_BUFSIZE && grams != []
      && txbuflength == ETH_HEADERSIZE + EC_ELENGTHSIZE + Sizes(grams) <= EC_BUFSIZE
      && Word(txbuf[..], ETH_HEADERSIZE) == EC_ECATTYPE + Sizes(grams)
      && Chain(txbuf[..], ETH_HEADERSIZE + EC_ELENGTHSIZE, grams, mores)
      && mores[0] == (|grams| > 1)
    }

    constructor ()
      ensures txbuf.Length == EC_BUFSIZE && fresh(txbuf) && grams == []
    {
      txbuf := new byte[EC_BUFSIZE](i => 0);
      txbuflength, grams, mores := 0, [], [];
    }

    method PutWord(i: nat, w: nat)
      requires i + 2 <= txbuf.Length && w < 0x1_0000
      modifies txbuf
      ensures Word(txbuf[..], i) == w
      ensures forall k :: 0 <= k < txbuf.Length && k != i && k != i + 1 ==> txbuf[k] == old(txbuf[k])
    {
      WordRoundTrip(w);
      txbuf[i], txbuf[i + 1] := Low(w), High(w);
    }

    /** Everything of a datagram but the frame length: header, data, working counter zero. */
    method PutGram(pos: nat, com: byte, idx: byte, adp: nat, ado: nat, more: bool, data: seq<byte>)
      requires pos + 12 + |data| <= txbuf.Length == EC_BUFSIZE && adp < 0x1_0000 && ado < 0x1_0000
      modifies txbuf
      ensures At(txbuf[..], pos, Gram(com, idx, adp, ado, Written(com, data), 0), more)
      ensures forall k :: 0 <= k < txbuf.Length && !(pos <= k < pos + 12 + |data|) ==> txbuf[k] == old(txbuf[k])
    {
      txbuf[pos], txbuf[pos + 1] := com, idx;
      PutWord(pos + 2, adp);
      PutWord(pos + 4, ado);
      PutWord(pos + 6, |data| + if more then EC_DATAGRAMFOLLOWS else 0);
      var w := Written(com, data);
      forall i | 0 <= i < |data| {
        txbuf[pos + 10 + i] := w[i];
      }
      PutWord(pos + 10 + |data|, 0);
      assert txbuf[..][pos + 10..pos + 10 + |data|] == w;
    }

    /** The first datagram of a frame. */
    method SetupDatagram(com: byte, idx: byte, adp: nat, ado: nat, data: seq<byte>)
      requires txbuf.Length == EC_BUFSIZE && 28 + |data| <= EC_BUFSIZE && adp < 0x1_0000 && ado < 0x1_0000
      modifies this, txbuf
      ensures Valid()
      ensures grams == [Gram(com, idx, adp, ado, Written(com, data), 0)] && mores == [false]
      ensures grams[0].data == if com in {0, 1, 4, 7, 10} then Zeros(|data|) else data
    {
      PutWord(ETH_HEADERSIZE, EC_ECATTYPE + EC_HEADERSIZE + |data|);
      PutGram(ETH_HEADERSIZE + EC_ELENGTHSIZE, com, idx, adp, ado, false, data);
      txbuflength := ETH_HEADERSIZE + EC_HEADERSIZE + EC_WKCSIZE + |data|;
      grams, mores := [Gram(com, idx, adp, ado, Written(com, data), 0)], [false];
      assert grams[1..] == [] && mores[1..] == [];
    }

    /** One more datagram at the end; returns where its data will be in the receive buffer, which
        has no Ethernet header. */
    method AddDatagram(com: byte, idx: byte, more: bool, adp: nat, ado: nat, data: seq<byte>) returns (offset: nat)
      requires Valid() && txbuflength + 12 + |data| <= EC_BUFSIZE && adp < 0x1_0000 && ado < 0x1_0000
      modifies this, txbuf
      ensures Valid()
      ensures grams == old(grams) + [Gram(com, idx, adp, ado, Written(com, data), 0)]
      ensures grams[|grams| - 1].data == if com in {0, 1, 4, 7, 10} then Zeros(|data|) else data
      ensures mores == old(mores)[0 := true] + [more]
      ensures offset == DataAt(grams, |old(grams)|)
    {
      hide At, Chain, Sizes;
      var prevlength, start := txbuflength, ETH_HEADERSIZE + EC_ELENGTHSIZE;
      ghost var g := Gram(com, idx, adp, ado, Written(com, data), 0);
      FirstAt(txbuf[..], start, grams, mores);
      var elength := Word(txbuf[..], ETH_HEADERSIZE);
      var dlength := Word(txbuf[..], start + 6);
      ghost var b := txbuf[..];
      PutWord(ETH_HEADERSIZE, elength + EC_HEADERSIZE + |data|);
      PutWord(start + 6, if dlength >= EC_DATAGRAMFOLLOWS then dlength else dlength + EC_DATAGRAMFOLLOWS);
      ghost var c := txbuf[..];
      FirstFollows(b, c, start, grams, mores);
      PutGram(prevlength, com, idx, adp, ado, more, data);
      ChainKept(c, txbuf[..], start, grams, mores[0 := true]);
      ChainGrows(txbuf[..], start, grams, mores[0 := true], g, more);
      SizesJoin(grams, [g]);
      SizesOne(g);
      assert (grams + [g])[..|grams|] == grams;
      txbuflength := prevlength + EC_HEADERSIZE - EC_ELENGTHSIZE + EC_WKCSIZE + |data|;
      grams, mores := grams + [g], mores[0 := true] + [more];
      offset := prevlength + EC_HEADERSIZE - EC_ELENGTHSIZE - ETH_HEADERSIZE;
    }
  }

  lemma {:induction false} FirstAt(b: seq<byte>, pos: nat, gs: seq<Gram>, mores: seq<bool>)
    requires Chain(b, pos, gs, mores) && gs != []
    ensures |gs| == |mores| && pos + 12 + |gs[0].data| <= |b| && 12 + |gs[0].data| <= Sizes(gs) && |gs[0].data| < 0x800
    ensures Word(b, pos + 6) == |gs[0].data| + if mores[0] then EC_DATAGRAMFOLLOWS else 0
  {
  }

  lemma {:induction false} SizesOne(g: Gram)
    ensures Sizes([g]) == Size(g)
  {
    assert [g][1..] == [];
  }

  /** Where the data of datagram `i` is in a received frame. */
  function DataAt(gs: seq<Gram>, i: nat): nat
    requires i <= |gs|
  {
    EC_ELENGTHSIZE + Sizes(gs[..i]) + EC_HEADERSIZE - EC_ELENGTHSIZE
  }

  // ----- The reply -----

  /** Slaves change contents and counters of datagrams, never their lengths. */
  predicate SameShape(gs: seq<Gram>, rs: seq<Gram>)
  {
    |gs| == |rs| && forall i :: 0 <= i < |gs| ==> |gs[i].data| == |rs[i].data|
  }

  lemma {:induction false} ShapeSizes(gs: seq<Gram>, rs: seq<Gram>)
    requires SameShape(gs, rs)
    ensures Sizes(gs) == Sizes(rs)
    decreases gs
  {
    if gs != [] {
      assert forall i :: 0 <= i < |gs| - 1 ==> gs[1..][i] == gs[i + 1] && rs[1..][i] == rs[i + 1];
      ShapeSizes(gs[1..], rs[1..]);
    }
  }

  /** The offset computed when datagram `i` was added is where its reply is. */
  lemma {:induction false} ReplyData(gs: seq<Gram>, rx: seq<byte>, rs: seq<Gram>, mores: seq<bool>, i: nat)
    requires SameShape(gs, rs) && Chain(rx, EC_ELENGTHSIZE, rs, mores) && i < |gs|
    ensures DataAt(gs, i) + |gs[i].data| <= |rx|
    ensures rx[DataAt(gs, i)..DataAt(gs, i) + |gs[i].data|] == rs[i].data
  {
    hide Chain;
    ChainAt(rx, EC_ELENGTHSIZE, rs, mores, i);
    ShapeSizes(gs[..i], rs[..i]);
  }

  /** The word that the frame length points at in a received frame is the working counter of its
      last datagram. */
  lemma {:induction false} LastCounter(gs: seq<Gram>, rx: seq<byte>, rs: seq<Gram>, mores: seq<bool>)
    requires SameShape(gs, rs) && gs != [] && Chain(rx, EC_ELENGTHSIZE, rs, mores)
    requires Sizes(gs) < 0x1000 && |rx| >= 2 && Word(rx, 0) == EC_ECATTYPE + Sizes(gs)
    ensures var l := Word(rx, 0) % 0x1000; l + 2 <= |rx| && Word(rx, l) == rs[|rs| - 1].wkc
  {
    hide Chain, Word;
    var last := |rs| - 1;
    ChainAt(rx, EC_ELENGTHSIZE, rs, mores, last);
    ShapeSizes(gs, rs);
    SizesJoin(rs[..last], [rs[last]]);
    SizesOne(rs[last]);
    assert rs[..last] + [rs[last]] == rs;
  }

  const ECT_REG_ALSTAT := 0x0130
  const MAX_FPRD_MULTI := 64
  const ALSTATUS_SIZE := 6

  /** The status read of slave `adp`. */
  function StatusRead(idx: byte, adp: nat): Gram
  {
    Gram(FPRD, idx, adp, ECT_REG_ALSTAT, Zeros(ALSTATUS_SIZE), 0)
  }

  lemma {:induction false} DataAtKept(gs: seq<Gram>, g: Gram, i: nat)
    requires i <= |gs|
    ensures DataAt(gs + [g], i) == DataAt(gs, i)
  {
    assert (gs + [g])[..i] == gs[..i];
  }

  lemma {:induction false} StatusSizes(gs: seq<Gram>)
    requires forall i :: 0 <= i < |gs| ==> |gs[i].data| == ALSTATUS_SIZE
    ensures Sizes(gs) == 18 * |gs|
    decreases gs
  {
    if gs != [] {
      StatusSizes(gs[1..]);
    }
  }

  /** One frame that asks every slave of the list for its status. */
  method BuildStatusReads(tx: TxBuffer, idx: byte, configlst: seq<nat>, slstatlst: array<seq<byte>>)
    returns (sldatapos: seq<nat>)
    requires tx.txbuf.Length == EC_BUFSIZE && 0 < |configlst| <= MAX_FPRD_MULTI && slstatlst.Length >= |configlst|
    requires forall i :: 0 <= i < |configlst| ==> configlst[i] < 0x1_0000 && |slstatlst[i]| == ALSTATUS_SIZE
    modifies tx, tx.txbuf
    ensures tx.Valid() && |tx.grams| == |configlst| == |sldatapos|
    ensures forall i :: 0 <= i < |configlst| ==> tx.grams[i] == Gram(4, idx, configlst[i], 0x130, Zeros(6), 0)
    ensures forall i :: 0 <= i < |configlst| ==> tx.mores[i] == (i < |configlst| - 1)
    ensures forall i :: 0 <= i < |configlst| ==> sldatapos[i] == DataAt(tx.grams, i)
  {
    hide Sizes, Chain, At;
    var n := |configlst|;
    tx.SetupDatagram(FPRD, idx, configlst[0], ECT_REG_ALSTAT, slstatlst[0]);
    sldatapos := [EC_HEADERSIZE];
    FirstDataAt(tx.grams);
    var slcnt := 1;
    while slcnt < n - 1
      invariant 1 <= slcnt <= n && tx.Valid() && |tx.grams| == slcnt == |sldatapos| && (slcnt < n || n == 1)
      invariant forall i :: 0 <= i < slcnt ==> tx.grams[i] == StatusRead(idx, configlst[i])
      invariant |tx.mores| == slcnt && forall i :: 0 <= i < slcnt ==> tx.mores[i] == (slcnt > 1)
      invariant forall i :: 0 <= i < slcnt ==> sldatapos[i] == DataAt(tx.grams, i)
    {
      sldatapos := AddStatusRead(tx, idx, true, configlst[slcnt], slstatlst[slcnt], sldatapos);
      slcnt := slcnt + 1;
    }
    if slcnt < n {
      sldatapos := AddStatusRead(tx, idx, false, configlst[slcnt], slstatlst[slcnt], sldatapos);
    }
  }

  method AddStatusRead(tx: TxBuffer, idx: byte, more: bool, adp: nat, status: seq<byte>, positions: seq<nat>)
    returns (sldatapos: seq<nat>)
    requires tx.Valid() && |tx.grams| < MAX_FPRD_MULTI && |status| == ALSTATUS_SIZE && adp < 0x1_0000
    requires forall i :: 0 <= i < |tx.grams| ==> |tx.grams[i].data| == ALSTATUS_SIZE
    requires |positions| == |tx.grams| && forall i :: 0 <= i < |positions| ==> positions[i] == DataAt(tx.grams, i)
    modifies tx, tx.txbuf
    ensures tx.Valid() && tx.grams == old(tx.grams) + [StatusRead(idx, adp)]
    ensures tx.mores == old(tx.mores)[0 := true] + [more]
    ensures |sldatapos| == |tx.grams| && forall i :: 0 <= i < |sldatapos| ==> sldatapos[i] == DataAt(tx.grams, i)
  {
    hide Sizes, Chain, At, DataAt;
    StatusSizes(tx.grams);
    ghost var gs := tx.grams;
    var offset := tx.AddDatagram(FPRD, idx, more, adp, ECT_REG_ALSTAT, status);
    forall i | 0 <= i < |gs| ensures positions[i] == DataAt(tx.grams, i) {
      DataAtKept(gs, StatusRead(idx, adp), i);
    }
    sldatapos := positions + [offset];
  }

  /** Hands the replies out: each slave of the list gets the reply to the datagram addressed to it. */
  method CollectStatus(rx: seq<byte>, sldatapos: seq<nat>, wkc: int, slstatlst: array<seq<byte>>, ghost gs: seq<Gram>,
          ghost rs: seq<Gram>, ghost mores: seq<bool>)
    requires SameShape(gs, rs) && Chain(rx, EC_ELENGTHSIZE, rs, mores)
    requires |sldatapos| == |gs| <= slstatlst.Length
    requires forall i :: 0 <= i < |gs| ==> sldatapos[i] == DataAt(gs, i) && |gs[i].data| == ALSTATUS_SIZE
    modifies slstatlst
    ensures wkc >= 0 ==> forall i :: 0 <= i < |gs| ==> slstatlst[i] == rs[i].data
    ensures wkc < 0 ==> slstatlst[..] == old(slstatlst[..])
  {
    hide Chain, DataAt;
    if wkc >= 0 {
      for slcnt := 0 to |sldatapos|
        invariant forall i :: 0 <= i < slcnt ==> slstatlst[i] == rs[i].data
      {
        ReplyData(gs, rx, rs, mores, slcnt);
        slstatlst[slcnt] := rx[sldatapos[slcnt]..sldatapos[slcnt] + ALSTATUS_SIZE];
      }
    }
  }

  lemma {:induction false} FirstDataAt(gs: seq<Gram>)
    ensures DataAt(gs, 0) == EC_HEADERSIZE
  {
    assert gs[..0] == [];
  }
}
