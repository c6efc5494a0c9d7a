/** Mapping a group of slaves into one process image: all outputs, then all inputs, then a mailbox
    status byte for every slave that has a mailbox and an FMMU left; and the cut into segments. */
module Group {
  import opened Bytes
  import opened Mapping
  import opened Segments
  import ProcessData

  const EC_MAXFMMU := 4

  /** Output and input bits, sync managers, and whether the slave has a mailbox. */
  datatype Slave = Slave(obits: nat, ibits: nat, sms: seq<Sm>, mailbox: bool)

  function Bits(s: Slave, want: nat): nat
  {
    if want == OUTPUTS then s.obits else s.ibits
  }

  /** What the sync managers of a slave must offer for its data to be mapped at all. */
  predicate Mappable(s: Slave, want: nat)
  {
    && WordSms(s.sms) && Bits(s, want) < 0x1_0000
    && (Bits(s, want) > 7 ==> Fed(s.sms, want, 0))
  }

  // ----- The plan: where every slave goes, from the bit counts alone -----

  /** The cursor behind one slave; without packing it goes on to the next whole byte. */
  function Step(cursor: nat, bits: nat, packed: bool): nat
  {
    if bits == 0 then cursor else if packed then Finish(cursor, bits) else Aligned(Finish(cursor, bits))
  }

  function Cursor(slaves: seq<Slave>, want: nat, start: nat, packed: bool): nat
  {
    if slaves == [] then start
    else Step(Cursor(slaves[..|slaves| - 1], want, start, packed), Bits(slaves[|slaves| - 1], want), packed)
  }

  /** The segments behind one slave, whose bytes are those the cursor moved on. */
  function StepCut(c: Cut, cursor: nat, bits: nat, packed: bool): Cut
    requires c.max > 0
  {
    if bits == 0 then c else Block(c, Step(cursor, bits, packed) / 8 - cursor / 8)
  }

  function Cuts(slaves: seq<Slave>, want: nat, start: nat, packed: bool, c: Cut): (d: Cut)
    requires Fits(c)
    ensures Fits(d)
  {
    if slaves == [] then c
    else
      var rest := slaves[..|slaves| - 1];
      var d := Cuts(rest, want, start, packed, c);
      StepCutKeeps(d, Cursor(rest, want, start, packed), Bits(slaves[|slaves| - 1], want), packed);
      StepCut(d, Cursor(rest, want, start, packed), Bits(slaves[|slaves| - 1], want), packed)
  }

  /** A last partly used byte is completed. */
  function Filled(c: Cut, cursor: nat, inputs: bool): Cut
  {
    if cursor % 8 > 0 then Fill(c, inputs) else c
  }

  function Statuses(have: seq<bool>, c: Cut): Cut
  {
    if have == [] then c
    else Status(Statuses(have[..|have| - 1], c), if have[|have| - 1] then 1 else 0)
  }

  lemma {:induction false} StepMoves(cursor: nat, bits: nat, packed: bool)
    ensures cursor <= Begin(cursor, bits) <= Finish(cursor, bits)
            && (bits > 0 ==> Finish(cursor, bits) <= Step(cursor, bits, packed))
    ensures cursor <= Step(cursor, bits, packed) && cursor / 8 <= Step(cursor, bits, packed) / 8
    ensures !packed && cursor % 8 == 0 ==> Step(cursor, bits, packed) % 8 == 0
    ensures bits > 7 ==> Begin(cursor, bits) % 8 == 0 && Begin(cursor, bits) - cursor < 8
    ensures bits > 0 ==> Finish(cursor, bits) == Begin(cursor, bits) + if bits > 7 then 8 * BytesOf(bits) else bits
  {
  }

  lemma {:induction false} StepCutKeeps(c: Cut, cursor: nat, bits: nat, packed: bool)
    requires Fits(c)
    ensures var d := StepCut(c, cursor, bits, packed);
            Fits(d) && Extends(c, d) && Total(d) == Total(c) + Step(cursor, bits, packed) / 8 - cursor / 8
  {
    hide Step, Block, Fits, Total, Extends;
    StepMoves(cursor, bits, packed);
    if bits > 0 {
      BlockKeeps(c, Step(cursor, bits, packed) / 8 - cursor / 8);
    } else {
      Same(c);
      StepNothing(cursor, packed);
    }
  }

  lemma {:induction false} Same(c: Cut)
    ensures Extends(c, c)
  {
    assert c.closed[..|c.closed|] == c.closed;
  }

  lemma {:induction false} StepNothing(cursor: nat, packed: bool)
    ensures Step(cursor, 0, packed) == cursor
  {
  }

  // ----- Order and places -----

  /** The cursor behind the first `k` slaves. */
  function Before(slaves: seq<Slave>, want: nat, start: nat, packed: bool, k: nat): nat
    requires k <= |slaves|
  {
    Cursor(slaves[..k], want, start, packed)
  }

  lemma {:induction false} BeforeNext(slaves: seq<Slave>, want: nat, start: nat, packed: bool, k: nat)
    requires k < |slaves|
    ensures Before(slaves, want, start, packed, k + 1)
            == Step(Before(slaves, want, start, packed, k), Bits(slaves[k], want), packed)
  {
    assert slaves[..k + 1][..k] == slaves[..k];
  }

  lemma {:induction false} CursorGrows(slaves: seq<Slave>, want: nat, start: nat, packed: bool, k: nat, l: nat)
    requires k <= l <= |slaves|
    ensures start <= Before(slaves, want, start, packed, k) <= Before(slaves, want, start, packed, l)
    decreases k + l
  {
    hide Step;
    if k < l {
      BeforeNext(slaves, want, start, packed, l - 1);
      StepMoves(Before(slaves, want, start, packed, l - 1), Bits(slaves[l - 1], want), packed);
      CursorGrows(slaves, want, start, packed, k, l - 1);
    } else if k > 0 {
      BeforeNext(slaves, want, start, packed, k - 1);
      StepMoves(Before(slaves, want, start, packed, k - 1), Bits(slaves[k - 1], want), packed);
      CursorGrows(slaves, want, start, packed, k - 1, k - 1);
    }
  }

  /** The data of slave `k` end before those of a later slave `l` begin, and before the cursor
      behind all slaves. */
  lemma {:induction false} SlavesInOrder(slaves: seq<Slave>, want: nat, start: nat, packed: bool, k: nat, l: nat)
    requires k < l <= |slaves| && Bits(slaves[k], want) > 0
    ensures start <= Begin(Before(slaves, want, start, packed, k), Bits(slaves[k], want))
    ensures Finish(Before(slaves, want, start, packed, k), Bits(slaves[k], want))
            <= Before(slaves, want, start, packed, l)
    ensures l < |slaves| ==>
              var before := Before(slaves, want, start, packed, l); before <= Begin(before, Bits(slaves[l], want))
  {
    hide Step, Begin, Finish, Before;
    BeforeNext(slaves, want, start, packed, k);
    StepMoves(Before(slaves, want, start, packed, k), Bits(slaves[k], want), packed);
    CursorGrows(slaves, want, start, packed, k, k);
    CursorGrows(slaves, want, start, packed, k + 1, l);
    if l < |slaves| {
      StepMoves(Before(slaves, want, start, packed, l), Bits(slaves[l], want), packed);
    }
  }

  lemma {:induction false} CutsTotal(slaves: seq<Slave>, want: nat, start: nat, packed: bool, c: Cut)
    requires Fits(c)
    ensures var d := Cuts(slaves, want, start, packed, c);
            Extends(c, d) && Total(d) == Total(c) + Cursor(slaves, want, start, packed) / 8 - start / 8
    decreases slaves
  {
    hide Step, StepCut, Fits, Total, Extends;
    if slaves == [] {
      Same(c);
    } else {
      var rest := slaves[..|slaves| - 1];
      CutsTotal(rest, want, start, packed, c);
      var d := Cuts(rest, want, start, packed, c);
      StepCutKeeps(d, Cursor(rest, want, start, packed), Bits(slaves[|slaves| - 1], want), packed);
      ExtendsOn(c, d, Cuts(slaves, want, start, packed, c));
    }
  }

  // ----- The whole image -----

  /** Segments behind the outputs, and behind the inputs, each completed to a byte. */
  function OutputCut(slaves: seq<Slave>, packed: bool): (c: Cut)
    ensures Fits(c)
  {
    var o := Cursor(slaves, OUTPUTS, 0, packed);
    FillKeeps(Cuts(slaves, OUTPUTS, 0, packed, START), false);
    Filled(Cuts(slaves, OUTPUTS, 0, packed, START), o, false)
  }

  function OutputBytes(slaves: seq<Slave>, packed: bool): nat
  {
    Aligned(Cursor(slaves, OUTPUTS, 0, packed)) / 8
  }

  function InputCut(slaves: seq<Slave>, packed: bool): (c: Cut)
    ensures Fits(c)
  {
    var start := 8 * OutputBytes(slaves, packed);
    var c := Cuts(slaves, INPUTS, start, packed, OutputCut(slaves, packed));
    FillKeeps(c, true);
    Filled(c, Cursor(slaves, INPUTS, start, packed), true)
  }

  /** Where the inputs end. */
  function InputEnd(slaves: seq<Slave>, packed: bool): nat
  {
    Aligned(Cursor(slaves, INPUTS, 8 * OutputBytes(slaves, packed), packed)) / 8
  }

  function ImageCut(slaves: seq<Slave>, packed: bool, have: seq<bool>): Cut
  {
    Statuses(have, InputCut(slaves, packed))
  }

  /** The table of segments is long enough, whichever slaves have a status byte. */
  ghost predicate EnoughSegments(slaves: seq<Slave>, packed: bool)
  {
    forall have: seq<bool> :: |have| == |slaves| ==> |ImageCut(slaves, packed, have).closed| < MAXIOSEGMENTS
  }

  lemma {:induction false} StatusesKeep(have: seq<bool>, c: Cut)
    requires Fits(c)
    ensures Fits(Statuses(have, c)) && Extends(c, Statuses(have, c))
            && Total(Statuses(have, c)) == Total(c) + Count(have)
    decreases have
  {
    hide Fits, Extends, Total, Status;
    if have == [] {
      Same(c);
    } else {
      var rest := have[..|have| - 1];
      StatusesKeep(rest, c);
      StatusKeeps(Statuses(rest, c), if have[|have| - 1] then 1 else 0);
      ExtendsOn(c, Statuses(rest, c), Statuses(have, c));
    }
  }

  function Count(have: seq<bool>): nat
  {
    if have == [] then 0 else Count(have[..|have| - 1]) + if have[|have| - 1] then 1 else 0
  }

  lemma {:induction false} FilledKeeps(c: Cut, cursor: nat, inputs: bool)
    requires Fits(c)
    ensures var d := Filled(c, cursor, inputs);
            Fits(d) && Extends(c, d) && Total(d) == Total(c) + Aligned(cursor) / 8 - cursor / 8
  {
    hide Fits, Extends, Total, Fill;
    FillKeeps(c, inputs);
    Same(c);
  }

  /** For every group: the segments are those of a frame each, the first with room for the clock
      datagram, and together they are as long as the image. */
  lemma {:induction false} SegmentsCoverImage(slaves: seq<Slave>, packed: bool, have: seq<bool>)
    ensures var c := ImageCut(slaves, packed, have);
            && Fits(c) && Extends(OutputCut(slaves, packed), c) && Extends(InputCut(slaves, packed), c)
            && Total(c) == InputEnd(slaves, packed) + Count(have)
            && Total(OutputCut(slaves, packed)) == OutputBytes(slaves, packed) <= InputEnd(slaves, packed)
  {
    hide Fits, Extends, Total, Filled, Cuts, Cursor, Statuses, Aligned;
    var o := Cursor(slaves, OUTPUTS, 0, packed);
    StartTotal();
    CutsTotal(slaves, OUTPUTS, 0, packed, START);
    FilledKeeps(Cuts(slaves, OUTPUTS, 0, packed, START), o, false);
    var start := 8 * OutputBytes(slaves, packed);
    var c := OutputCut(slaves, packed);
    CutsTotal(slaves, INPUTS, start, packed, c);
    FilledKeeps(Cuts(slaves, INPUTS, start, packed, c), Cursor(slaves, INPUTS, start, packed), true);
    ExtendsOn(c, Cuts(slaves, INPUTS, start, packed, c), InputCut(slaves, packed));
    StatusesKeep(have, InputCut(slaves, packed));
    ExtendsOn(c, InputCut(slaves, packed), ImageCut(slaves, packed, have));
    CursorBehind(slaves, INPUTS, start, packed);
    AlignedBehind(Cursor(slaves, INPUTS, start, packed), start);
  }

  lemma {:induction false} StartTotal()
    ensures Fits(START) && Total(START) == 0
  {
  }

  lemma {:induction false} AlignedBehind(cursor: nat, start: nat)
    requires start <= cursor && start % 8 == 0
    ensures start / 8 <= cursor / 8 <= Aligned(cursor) / 8
  {
  }

  lemma {:induction false} CursorBehind(slaves: seq<Slave>, want: nat, start: nat, packed: bool)
    ensures start <= Cursor(slaves, want, start, packed)
  {
    CursorGrows(slaves, want, start, packed, |slaves|, |slaves|);
    assert slaves[..|slaves|] == slaves;
  }

  // ----- No slave is split -----

  function PhaseStart(slaves: seq<Slave>, want: nat, packed: bool): nat
  {
    if want == OUTPUTS then 0 else 8 * OutputBytes(slaves, packed)
  }

  function PhaseCut(slaves: seq<Slave>, want: nat, packed: bool): (c: Cut)
    ensures Fits(c)
  {
    if want == OUTPUTS then START else OutputCut(slaves, packed)
  }

  lemma {:induction false} CutsExtend(slaves: seq<Slave>, want: nat, start: nat, packed: bool, c: Cut, k: nat)
    requires Fits(c) && k <= |slaves|
    ensures Extends(Cuts(slaves[..k], want, start, packed, c), Cuts(slaves, want, start, packed, c))
    decreases |slaves|
  {
    hide Step, StepCut, Fits, Extends;
    if k == |slaves| {
      assert slaves[..k] == slaves;
      Same(Cuts(slaves, want, start, packed, c));
    } else {
      var rest := slaves[..|slaves| - 1];
      assert rest[..k] == slaves[..k];
      CutsExtend(rest, want, start, packed, c, k);
      StepCutKeeps(Cuts(rest, want, start, packed, c), Cursor(rest, want, start, packed),
        Bits(slaves[|slaves| - 1], want), packed);
      ExtendsOn(Cuts(slaves[..k], want, start, packed, c), Cuts(rest, want, start, packed, c),
        Cuts(slaves, want, start, packed, c));
    }
  }

  /** The segments when a phase is over are extended to those of the image. */
  lemma {:induction false} PhaseExtends(slaves: seq<Slave>, want: nat, packed: bool, have: seq<bool>)
    requires want == OUTPUTS || want == INPUTS
    ensures Extends(Cuts(slaves, want, PhaseStart(slaves, want, packed), packed, PhaseCut(slaves, want, packed)),
                    ImageCut(slaves, packed, have))
    ensures Total(PhaseCut(slaves, want, packed)) == PhaseStart(slaves, want, packed) / 8
  {
    hide Fits, Extends, Total, Filled, Cuts, Cursor, Statuses, Aligned;
    var start := PhaseStart(slaves, want, packed);
    var d := Cuts(slaves, want, start, packed, PhaseCut(slaves, want, packed));
    StartTotal();
    SegmentsCoverImage(slaves, packed, have);
    FilledKeeps(d, Cursor(slaves, want, start, packed), want == INPUTS);
    var e := if want == OUTPUTS then OutputCut(slaves, packed) else InputCut(slaves, packed);
    ExtendsOn(d, e, ImageCut(slaves, packed, have));
  }

  /** Segment `j` of the image holds the bytes `from` up to `to`. */
  predicate InSegment(c: Cut, j: nat, from: nat, to: nat)
  {
    j < |All(c)| && Sum(All(c)[..j]) <= from && to <= Sum(All(c)[..j + 1])
  }

  /** With whole bytes for every slave, the data of a slave that fit the smallest segment are all
      in one segment of the image. */
  lemma {:induction false} SlaveUndivided(slaves: seq<Slave>, want: nat, k: nat, have: seq<bool>) returns (j: nat)
    requires (want == OUTPUTS || want == INPUTS) && k < |slaves| && Bits(slaves[k], want) > 0
    requires var before := Before(slaves, want, PhaseStart(slaves, want, false), false, k);
             Step(before, Bits(slaves[k], want), false) / 8 - before / 8 <= MAXLRWDATA - FIRSTDCDATAGRAM
    ensures var before := Before(slaves, want, PhaseStart(slaves, want, false), false, k);
            InSegment(ImageCut(slaves, false, have), j, before / 8, Step(before, Bits(slaves[k], want), false) / 8)
  {
    hide Step, Fits, Extends, Total, Sum, All, ImageCut, Undivided, Block;
    var start, c0 := PhaseStart(slaves, want, false), PhaseCut(slaves, want, false);
    var rest, bits := slaves[..k], Bits(slaves[k], want);
    var before := Before(slaves, want, start, false, k);
    var c := Cuts(rest, want, start, false, c0);
    PhaseExtends(slaves, want, false, have);
    CutsTotal(rest, want, start, false, c0);
    CutsExtend(slaves, want, start, false, c0, k + 1);
    assert slaves[..k + 1][..k] == rest;
    FitsMax(c);
    StepMoves(before, bits, false);
    var d := StepCut(c, before, bits, false);
    StepCutKeeps(c, before, bits, false);
    BlockUndivided(c, Step(before, bits, false) / 8 - before / 8);
    ExtendsOn(d, Cuts(slaves, want, start, false, c0), ImageCut(slaves, false, have));
    StaysUndivided(c, d, ImageCut(slaves, false, have));
    j := |d.closed|;
  }

  /** So, when the image is exchanged in its segments, such a slave is counted once. */
  lemma {:induction false} SlaveCountedOnce(slaves: seq<Slave>, want: nat, k: nat, have: seq<bool>, weight: nat)
    requires (want == OUTPUTS || want == INPUTS) && k < |slaves| && Bits(slaves[k], want) > 0
    requires var before := Before(slaves, want, PhaseStart(slaves, want, false), false, k);
             Step(before, Bits(slaves[k], want), false) / 8 - before / 8 <= MAXLRWDATA - FIRSTDCDATAGRAM
    ensures var before := Before(slaves, want, PhaseStart(slaves, want, false), false, k);
            var place := ProcessData.Place(before / 8, Step(before, Bits(slaves[k], want), false) / 8, weight);
            var segments := All(ImageCut(slaves, false, have));
            !ProcessData.Divided(place, segments, |segments|)
  {
    hide Step, All, ImageCut, Before, PhaseStart;
    var before := Before(slaves, want, PhaseStart(slaves, want, false), false, k);
    var after := Step(before, Bits(slaves[k], want), false);
    StepMoves(before, Bits(slaves[k], want), false);
    var j := SlaveUndivided(slaves, want, k, have);
    ProcessData.WithinSegment(ProcessData.Place(before / 8, after / 8, weight), All(ImageCut(slaves, false, have)), j);
  }

  lemma {:induction false} FitsMax(c: Cut)
    requires Fits(c)
    ensures c.max >= MAXLRWDATA - FIRSTDCDATAGRAM
  {
  }

  // ----- The expected working counter -----

  /** Working counts expected for the slaves of a phase. */
  function Expected(slaves: seq<Slave>, want: nat, start: nat, packed: bool, c: Cut): nat
    requires Fits(c)
  {
    if slaves == [] then 0
    else
      var rest := slaves[..|slaves| - 1];
      Expected(rest, want, start, packed, c)
      + StepHits(Cuts(rest, want, start, packed, c), Cursor(rest, want, start, packed),
        Bits(slaves[|slaves| - 1], want), packed)
  }

  /** What a phase counts, with the byte that completes it. */
  function ExpectedFilled(slaves: seq<Slave>, want: nat, start: nat, packed: bool, c: Cut): nat
    requires Fits(c)
  {
    Expected(slaves, want, start, packed, c)
    + if Cursor(slaves, want, start, packed) % 8 > 0 then FillHits(Cuts(slaves, want, start, packed, c)) else 0
  }

  /** The completing byte is expected to count exactly as often as it opens a segment. */
  lemma {:induction false} FillExpected(slaves: seq<Slave>, want: nat, start: nat, packed: bool, c: Cut)
    requires Fits(c)
    ensures var d := Cuts(slaves, want, start, packed, c);
            var e := Filled(d, Cursor(slaves, want, start, packed), want == INPUTS);
            ExpectedFilled(slaves, want, start, packed, c)
            == Expected(slaves, want, start, packed, c) + |e.closed| - |d.closed|
  {
    hide Fits, Cuts, Cursor, Expected;
    FillExactly(Cuts(slaves, want, start, packed, c), want == INPUTS);
  }

  function StepHits(c: Cut, cursor: nat, bits: nat, packed: bool): nat
    requires c.max > 0
  {
    if bits == 0 then 0 else Hits(c, Step(cursor, bits, packed) / 8 - cursor / 8)
  }

  /** Slaves, each in whole bytes, that are counted once too often. */
  function Overcounts(slaves: seq<Slave>, want: nat, start: nat, c: Cut): nat
    requires Fits(c)
  {
    if slaves == [] then 0
    else
      var rest := slaves[..|slaves| - 1];
      Overcounts(rest, want, start, c)
      + StepOver(Cuts(rest, want, start, false, c), Cursor(rest, want, start, false), Bits(slaves[|slaves| - 1], want))
  }

  function StepOver(c: Cut, cursor: nat, bits: nat): nat
  {
    if bits > 0 && ProcessData.Overcounted(c, Step(cursor, bits, false) / 8 - cursor / 8) then 1 else 0
  }

  /** The ranges of the image that the slaves answer for. */
  function Places(slaves: seq<Slave>, want: nat, start: nat, weight: nat): seq<ProcessData.Place>
  {
    if slaves == [] then []
    else
      var rest, bits := slaves[..|slaves| - 1], Bits(slaves[|slaves| - 1], want);
      var cursor := Cursor(rest, want, start, false);
      (if bits == 0 then [] else [ProcessData.Place(cursor / 8, Step(cursor, bits, false) / 8, weight)])
      + Places(rest, want, start, weight)
  }

  lemma {:induction false} CursorWhole(slaves: seq<Slave>, want: nat, start: nat)
    requires start % 8 == 0
    ensures Cursor(slaves, want, start, false) % 8 == 0
    decreases slaves
  {
    hide Step;
    if slaves != [] {
      var rest := slaves[..|slaves| - 1];
      CursorWhole(rest, want, start);
      StepMoves(Cursor(rest, want, start, false), Bits(slaves[|slaves| - 1], want), false);
    }
  }

  /** With whole bytes for every slave, the working counter collected in the segments of an image
      is the one expected, less what is expected of the slaves counted once too often. */
  lemma {:induction false} ExpectedCollected(slaves: seq<Slave>, want: nat, start: nat, c: Cut, f: Cut, weight: nat)
    requires Fits(c) && start % 8 == 0 && Total(c) == start / 8 && Extends(Cuts(slaves, want, start, false, c), f)
    ensures ProcessData.WkcSum(Places(slaves, want, start, weight), All(f), |All(f)|)
            == weight * (Expected(slaves, want, start, false, c) - Overcounts(slaves, want, start, c))
    decreases slaves
  {
    hide *;
    if slaves == [] {
      ProcessData.NothingCounted(All(f), |All(f)|);
      NoneExpected(want, start, c, weight);
    } else {
      var rest, bits := slaves[..|slaves| - 1], Bits(slaves[|slaves| - 1], want);
      var d, cursor := Cuts(rest, want, start, false, c), Cursor(rest, want, start, false);
      OneMoreExpected(slaves, want, start, c, weight);
      StepCutKeeps(d, cursor, bits, false);
      ExtendsOn(d, Cuts(slaves, want, start, false, c), f);
      ExpectedCollected(rest, want, start, c, f, weight);
      CutsTotal(rest, want, start, false, c);
      CursorWhole(rest, want, start);
      CursorBehind(rest, want, start, false);
      SlaveCollected(d, cursor, bits, f, weight);
      var x := StepHits(d, cursor, bits, false) - StepOver(d, cursor, bits);
      var y := Expected(rest, want, start, false, c) - Overcounts(rest, want, start, c);
      assert weight * (x + y) == weight * x + weight * y;
      if bits > 0 {
        var p := ProcessData.Place(cursor / 8, Step(cursor, bits, false) / 8, weight);
        ProcessData.WkcSumStep(p, Places(rest, want, start, weight), All(f), |All(f)|);
      }
    }
  }

  lemma {:induction false} NoneExpected(want: nat, start: nat, c: Cut, weight: nat)
    requires Fits(c)
    ensures Expected([], want, start, false, c) == 0 && Overcounts([], want, start, c) == 0
            && Places([], want, start, weight) == []
  {
  }

  lemma {:induction false} OneMoreExpected(slaves: seq<Slave>, want: nat, start: nat, c: Cut, weight: nat)
    requires Fits(c) && slaves != []
    ensures var rest, bits := slaves[..|slaves| - 1], Bits(slaves[|slaves| - 1], want);
            var d, cursor := Cuts(rest, want, start, false, c), Cursor(rest, want, start, false);
            && Fits(d) && d.max > 0 && Cuts(slaves, want, start, false, c) == StepCut(d, cursor, bits, false)
            && Expected(slaves, want, start, false, c)
               == Expected(rest, want, start, false, c) + StepHits(d, cursor, bits, false)
            && Overcounts(slaves, want, start, c) == Overcounts(rest, want, start, c) + StepOver(d, cursor, bits)
            && Places(slaves, want, start, weight)
               == (if bits == 0 then [] else [ProcessData.Place(cursor / 8, Step(cursor, bits, false) / 8, weight)])
                  + Places(rest, want, start, weight)
            && (bits == 0 ==> Places(slaves, want, start, weight) == Places(rest, want, start, weight))
  {
    hide StepCut, StepHits, StepOver, Step, Cursor;
    var rest := slaves[..|slaves| - 1];
    assert [] + Places(rest, want, start, weight) == Places(rest, want, start, weight);
  }

  /** So it is for the outputs, which count twice, and the inputs of every group: the count of the
      configuration is the one that every cycle collects, exactly when it counts no slave once
      too often. */
  lemma {:induction false} PhaseCounted(slaves: seq<Slave>, want: nat, have: seq<bool>, weight: nat)
    requires want == OUTPUTS || want == INPUTS
    ensures var start, c := PhaseStart(slaves, want, false), PhaseCut(slaves, want, false);
            var segments := All(ImageCut(slaves, false, have));
            ProcessData.WkcSum(Places(slaves, want, start, weight), segments, |segments|)
            == weight * (ExpectedFilled(slaves, want, start, false, c) - Overcounts(slaves, want, start, c))
  {
    hide Cursor, Cuts, Expected, Overcounts, Places, ImageCut, OutputCut, OutputBytes;
    var start, c := PhaseStart(slaves, want, false), PhaseCut(slaves, want, false);
    PhaseExtends(slaves, want, false, have);
    CursorWhole(slaves, want, start);
    ExpectedCollected(slaves, want, start, c, ImageCut(slaves, false, have), weight);
  }

  lemma {:induction false} SlaveCollected(d: Cut, cursor: nat, bits: nat, f: Cut, weight: nat)
    requires Fits(d) && cursor % 8 == 0 && Total(d) == cursor / 8 && Extends(StepCut(d, cursor, bits, false), f)
    ensures bits == 0 ==> StepHits(d, cursor, bits, false) == StepOver(d, cursor, bits) == 0
    ensures cursor / 8 <= Step(cursor, bits, false) / 8
    ensures bits > 0 ==>
              ProcessData.Pieces(ProcessData.Place(cursor / 8, Step(cursor, bits, false) / 8, weight), All(f), |All(f)|)
              == StepHits(d, cursor, bits, false) - StepOver(d, cursor, bits)
  {
    hide Step, Fits, Total, Extends, All, Hits, Block;
    StepMoves(cursor, bits, false);
    if bits > 0 {
      FitsMax(d);
      ProcessData.HitsArePieces(d, Step(cursor, bits, false) / 8 - cursor / 8, f, weight);
    }
  }

  // ----- The program -----

  /** The FMMUs of slave `k`: none without data, else they tile its place and reach its sync managers. */
  ghost predicate MappedAt(fmmus: seq<Fmmu>, slaves: seq<Slave>, want: nat, start: nat, packed: bool, k: nat)
    requires k < |slaves|
  {
    var before, bits := Before(slaves, want, start, packed, k), Bits(slaves[k], want);
    if bits == 0 then fmmus == [] else |slaves[k].sms| == EC_MAXSM && Mapped(fmmus, bits, want, slaves[k].sms, before)
  }

  /** Maps one slave and, without packing, goes on to the next whole byte. */
  method MapSlave(s: Slave, want: nat, logAddr: nat, bitPos: nat, packed: bool)
    returns (fmmus: seq<Fmmu>, newAddr: nat, newPos: nat)
    requires Mappable(s, want) && Bits(s, want) > 0 && bitPos <= 7
    ensures |s.sms| == EC_MAXSM && Mapped(fmmus, Bits(s, want), want, s.sms, 8 * logAddr + bitPos)
    ensures 8 * newAddr + newPos == Step(8 * logAddr + bitPos, Bits(s, want), packed) && newPos <= 7
  {
    hide Mapped, Begin;
    fmmus, newAddr, newPos := CreateMappings(Bits(s, want), want, s.sms, logAddr, bitPos);
    if !packed && newPos > 0 {
      newAddr, newPos := newAddr + 1, 0;
    }
  }

  /** Maps the outputs, or the inputs, of all slaves, and cuts them into segments. */
  method MapPhase(slaves: seq<Slave>, want: nat, base: nat, packed: bool, seg: Segmenter, ghost c: Cut)
    returns (maps: seq<seq<Fmmu>>, logAddr: nat, bitPos: nat, wkc: nat)
    requires Fits(c) && seg.Holds(c) && |Cuts(slaves, want, 8 * base, packed, c).closed| < MAXIOSEGMENTS
    requires forall k :: 0 <= k < |slaves| ==> Mappable(slaves[k], want)
    modifies seg, seg.IOsegment
    ensures |maps| == |slaves| && forall k :: 0 <= k < |slaves| ==> MappedAt(maps[k], slaves, want, 8 * base, packed, k)
    ensures 8 * logAddr + bitPos == Cursor(slaves, want, 8 * base, packed) && bitPos <= 7
    ensures seg.Holds(Cuts(slaves, want, 8 * base, packed, c)) && wkc == Expected(slaves, want, 8 * base, packed, c)
  {
    hide *;
    maps, logAddr, bitPos, wkc := [], base, 0, 0;
    var oLogAddr := logAddr;
    PhaseBegins(slaves, want, 8 * base, packed, c);
    for k := 0 to |slaves|
      invariant |maps| == k && forall i :: 0 <= i < k ==> MappedAt(maps[i], slaves, want, 8 * base, packed, i)
      invariant 8 * logAddr + bitPos == Before(slaves, want, 8 * base, packed, k) && bitPos <= 7 && oLogAddr == logAddr
      invariant seg.Holds(CutBefore(slaves, want, 8 * base, packed, c, k))
                && wkc == ExpectedBefore(slaves, want, 8 * base, packed, c, k)
    {
      ghost var d := CutBefore(slaves, want, 8 * base, packed, c, k);
      SlaveMoves(slaves, want, 8 * base, packed, c, k);
      var fmmus := [];
      if Bits(slaves[k], want) > 0 {
        fmmus, logAddr, bitPos := MapSlave(slaves[k], want, logAddr, bitPos, packed);
        var diff := logAddr - oLogAddr;
        oLogAddr := logAddr;
        var hits := seg.AddBlock(diff, d);
        wkc := wkc + hits;
      }
      MappedNow(fmmus, slaves, want, 8 * base, packed, k);
      maps := maps + [fmmus];
    }
  }

  /** The segments when the first `k` slaves are mapped. */
  ghost function CutBefore(slaves: seq<Slave>, want: nat, start: nat, packed: bool, c: Cut, k: nat): (d: Cut)
    requires Fits(c) && k <= |slaves|
    ensures Fits(d)
  {
    Cuts(slaves[..k], want, start, packed, c)
  }

  ghost function ExpectedBefore(slaves: seq<Slave>, want: nat, start: nat, packed: bool, c: Cut, k: nat): nat
    requires Fits(c) && k <= |slaves|
  {
    Expected(slaves[..k], want, start, packed, c)
  }

  lemma {:induction false} PhaseBegins(slaves: seq<Slave>, want: nat, start: nat, packed: bool, c: Cut)
    requires Fits(c)
    ensures Before(slaves, want, start, packed, 0) == start && CutBefore(slaves, want, start, packed, c, 0) == c
    ensures Before(slaves, want, start, packed, |slaves|) == Cursor(slaves, want, start, packed)
    ensures CutBefore(slaves, want, start, packed, c, |slaves|) == Cuts(slaves, want, start, packed, c)
    ensures ExpectedBefore(slaves, want, start, packed, c, 0) == 0
    ensures ExpectedBefore(slaves, want, start, packed, c, |slaves|) == Expected(slaves, want, start, packed, c)
  {
    assert slaves[..0] == [] && slaves[..|slaves|] == slaves;
  }

  /** What mapping slave `k` does to cursor and segments. */
  lemma {:induction false} SlaveMoves(slaves: seq<Slave>, want: nat, start: nat, packed: bool, c: Cut, k: nat)
    requires Fits(c) && k < |slaves|
    ensures var before, after := Before(slaves, want, start, packed, k), Before(slaves, want, start, packed, k + 1);
            var d, e := CutBefore(slaves, want, start, packed, c, k), CutBefore(slaves, want, start, packed, c, k + 1);
            var w := ExpectedBefore(slaves, want, start, packed, c, k);
            var x := ExpectedBefore(slaves, want, start, packed, c, k + 1);
            && after == Step(before, Bits(slaves[k], want), packed) && before / 8 <= after / 8
            && |e.closed| <= |Cuts(slaves, want, start, packed, c).closed|
            && (if Bits(slaves[k], want) == 0 then after == before && e == d && x == w
                else d.max > 0 && e == Block(d, after / 8 - before / 8) && x == w + Hits(d, after / 8 - before / 8))
  {
    hide Step, Fits, Block, Cuts, Cursor, Before, Hits, Expected;
    ExpectedNext(slaves, want, start, packed, c, k);
    var before := Before(slaves, want, start, packed, k);
    BeforeNext(slaves, want, start, packed, k);
    CutsNext(slaves, want, start, packed, c, k);
    CutsExtend(slaves, want, start, packed, c, k + 1);
    StepMoves(before, Bits(slaves[k], want), packed);
    StepNothing(before, packed);
  }

  lemma {:induction false} ExpectedNext(slaves: seq<Slave>, want: nat, start: nat, packed: bool, c: Cut, k: nat)
    requires Fits(c) && k < |slaves|
    ensures Cuts(slaves[..k], want, start, packed, c).max > 0
    ensures Expected(slaves[..k + 1], want, start, packed, c)
            == Expected(slaves[..k], want, start, packed, c)
               + StepHits(Cuts(slaves[..k], want, start, packed, c), Before(slaves, want, start, packed, k),
                 Bits(slaves[k], want), packed)
  {
    hide StepHits, Cuts, Cursor;
    FitsMax(Cuts(slaves[..k], want, start, packed, c));
    assert slaves[..k + 1][..k] == slaves[..k];
  }

  lemma {:induction false} MappedNow(fmmus: seq<Fmmu>, slaves: seq<Slave>, want: nat, start: nat, packed: bool, k: nat)
    requires k < |slaves|
    requires var before, bits := Before(slaves, want, start, packed, k), Bits(slaves[k], want);
             if bits == 0 then fmmus == []
             else |slaves[k].sms| == EC_MAXSM && Mapped(fmmus, bits, want, slaves[k].sms, before)
    ensures MappedAt(fmmus, slaves, want, start, packed, k)
  {
  }

  lemma {:induction false} CutsNext(slaves: seq<Slave>, want: nat, start: nat, packed: bool, c: Cut, k: nat)
    requires Fits(c) && k < |slaves|
    ensures Cuts(slaves[..k], want, start, packed, c).max > 0
    ensures Cuts(slaves[..k + 1], want, start, packed, c)
            == StepCut(Cuts(slaves[..k], want, start, packed, c), Before(slaves, want, start, packed, k),
              Bits(slaves[k], want), packed)
  {
    hide StepCut;
    assert slaves[..k + 1][..k] == slaves[..k];
  }

  lemma {:induction false} StatusesRoom(have: seq<bool>, c: Cut, n: nat)
    requires Fits(c) && |have| <= n
    requires forall h: seq<bool> :: |h| == n ==> |Statuses(h, c).closed| < MAXIOSEGMENTS
    ensures |Statuses(have, c).closed| < MAXIOSEGMENTS
    decreases n - |have|
  {
    if |have| < n {
      var more := have + [false];
      StatusesRoom(more, c, n);
      assert more[..|have|] == have;
      StatusesKeep(have, c);
      StatusKeeps(Statuses(have, c), 0);
    }
  }

  /** The FMMU of slave `k` for its status byte, if it has one: an input of the status register of the
      sync manager of its mailbox. */
  predicate StatusAt(fmmus: seq<Fmmu>, base: nat, have: seq<bool>, k: nat)
    requires k < |have|
  {
    fmmus == if have[k] then [Fmmu(base + Count(have[..k]), 0, 1, 7, 0x80d, 1)] else []
  }

  lemma {:induction false} StatusAtNext(fmmus: seq<seq<Fmmu>>, base: nat, have: seq<bool>, got: bool, last: seq<Fmmu>)
    requires |fmmus| == |have| && forall i :: 0 <= i < |have| ==> StatusAt(fmmus[i], base, have, i)
    requires last == if got then [Fmmu(base + Count(have), 0, 1, 7, 0x80d, 1)] else []
    ensures var next, all := have + [got], fmmus + [last];
            && Count(next) == Count(have) + (if got then 1 else 0)
            && forall i :: 0 <= i < |next| ==> StatusAt(all[i], base, next, i)
  {
    var next, all := have + [got], fmmus + [last];
    assert next[..|have|] == have;
    forall i | 0 <= i < |next| ensures StatusAt(all[i], base, next, i) {
      if i < |have| {
        assert next[..i] == have[..i] && StatusAt(fmmus[i], base, have, i);
      }
    }
  }

  /** Gives a slave with a mailbox a status byte, if it has an FMMU left. */
  method MapStatus(s: Slave, used: nat, logAddr: nat) returns (fmmus: seq<Fmmu>, got: bool)
    ensures got == (s.mailbox && used < EC_MAXFMMU)
    ensures fmmus == if got then [Fmmu(logAddr, 0, 1, 7, 0x80d, 1)] else []
  {
    fmmus, got := [], s.mailbox && used < EC_MAXFMMU;
    if got {
      fmmus := [Fmmu(logAddr, 0, 1, 7, 0x80d, FmmuType(INPUTS))];
    }
  }

  lemma {:induction false} StatusesNext(have: seq<bool>, got: bool, c: Cut)
    ensures Statuses(have + [got], c) == Status(Statuses(have, c), if got then 1 else 0)
  {
    assert (have + [got])[..|have|] == have;
  }

  /** Status bytes for all slaves of the group. */
  method MapStatuses(slaves: seq<Slave>, outs: seq<seq<Fmmu>>, ins: seq<seq<Fmmu>>, base: nat, seg: Segmenter,
          ghost c: Cut)
    returns (statuses: seq<seq<Fmmu>>, have: seq<bool>, logAddr: nat, hits: nat)
    requires Fits(c) && seg.Holds(c) && |outs| == |slaves| == |ins|
    requires forall h: seq<bool> :: |h| == |slaves| ==> |Statuses(h, c).closed| < MAXIOSEGMENTS
    modifies seg, seg.IOsegment
    ensures |have| == |slaves| == |statuses| && logAddr == base + Count(have) && seg.Holds(Statuses(have, c))
    ensures forall k :: 0 <= k < |slaves| ==> have[k] == (slaves[k].mailbox && |outs[k]| + |ins[k]| < EC_MAXFMMU)
    ensures forall k :: 0 <= k < |slaves| ==> StatusAt(statuses[k], base, have, k)
    ensures hits == StatusHits(slaves, have)
  {
    hide *;
    statuses, have, logAddr, hits := [], [], base, 0;
    StatusesNone(c, slaves);
    for k := 0 to |slaves|
      invariant |have| == k == |statuses| && logAddr == base + Count(have) && seg.Holds(Statuses(have, c))
      invariant forall i :: 0 <= i < k ==> have[i] == (slaves[i].mailbox && |outs[i]| + |ins[i]| < EC_MAXFMMU)
      invariant forall i :: 0 <= i < k ==> StatusAt(statuses[i], base, have, i)
      invariant hits == StatusHits(slaves, have)
    {
      var fmmus, got := MapStatus(slaves[k], |outs[k]| + |ins[k]|, logAddr);
      var diff := if got then 1 else 0;
      StatusAtNext(statuses, base, have, got, fmmus);
      StatusesRoom(have + [got], c, |slaves|);
      StatusesNext(have, got, c);
      seg.AddStatus(diff, Statuses(have, c));
      StatusHitsNext(slaves, have, got);
      if got && BytesOf(slaves[k].ibits) == 0 {
        hits := hits + 1;
      }
      logAddr := logAddr + diff;
      have, statuses := have + [got], statuses + [fmmus];
    }
  }

  lemma {:induction false} StatusesNone(c: Cut, slaves: seq<Slave>)
    ensures Statuses([], c) == c && Count([]) == 0 && StatusHits(slaves, []) == 0
  {
  }

  /** Status bytes expected to count: those of slaves without bytes of input. */
  function StatusHits(slaves: seq<Slave>, have: seq<bool>): nat
    requires |have| <= |slaves|
  {
    if have == [] then 0
    else
      var k := |have| - 1;
      StatusHits(slaves, have[..k]) + if have[k] && BytesOf(slaves[k].ibits) == 0 then 1 else 0
  }

  lemma {:induction false} StatusHitsNext(slaves: seq<Slave>, have: seq<bool>, got: bool)
    requires |have| < |slaves|
    ensures StatusHits(slaves, have + [got])
            == StatusHits(slaves, have) + if got && BytesOf(slaves[|have|].ibits) == 0 then 1 else 0
  {
    assert (have + [got])[..|have|] == have;
  }

  // ----- The counter of a cycle -----

  /** Where slave `k` is read, none if it has no inputs; and where its status byte is. */
  function InputPlace(slaves: seq<Slave>, k: nat): ProcessData.Place
    requires k < |slaves|
  {
    var start := PhaseStart(slaves, INPUTS, false);
    ProcessData.Place(Before(slaves, INPUTS, start, false, k) / 8, Before(slaves, INPUTS, start, false, k + 1) / 8, 1)
  }

  function StatusPlace(slaves: seq<Slave>, have: seq<bool>, k: nat): ProcessData.Place
    requires k < |have|
  {
    var at := InputEnd(slaves, false) + Count(have[..k]);
    ProcessData.Place(at, at + 1, 1)
  }

  function ImageSegments(slaves: seq<Slave>, have: seq<bool>): seq<nat>
  {
    All(ImageCut(slaves, false, have))
  }

  /** Slave `k` has a status byte that counts besides its inputs. */
  predicate Alone(slaves: seq<Slave>, have: seq<bool>, k: nat)
    requires k < |have| == |slaves|
  {
    var segments := ImageSegments(slaves, have);
    have[k] && !ProcessData.Shares(InputPlace(slaves, k), StatusPlace(slaves, have, k).from, segments, |segments|)
  }

  /** The status bytes of the first `n` slaves that count besides inputs, and how many they are. */
  function StatusPlaces(slaves: seq<Slave>, have: seq<bool>, n: nat): seq<ProcessData.Place>
    requires n <= |have| == |slaves|
  {
    if n == 0 then []
    else (if Alone(slaves, have, n - 1) then [StatusPlace(slaves, have, n - 1)] else [])
         + StatusPlaces(slaves, have, n - 1)
  }

  function AloneCount(slaves: seq<Slave>, have: seq<bool>, n: nat): nat
    requires n <= |have| == |slaves|
  {
    if n == 0 then 0 else AloneCount(slaves, have, n - 1) + if Alone(slaves, have, n - 1) then 1 else 0
  }

  /** All ranges that count in a cycle. */
  function GroupPlaces(slaves: seq<Slave>, have: seq<bool>): seq<ProcessData.Place>
    requires |have| == |slaves|
  {
    Places(slaves, OUTPUTS, PhaseStart(slaves, OUTPUTS, false), 2)
    + (Places(slaves, INPUTS, PhaseStart(slaves, INPUTS, false), 1) + StatusPlaces(slaves, have, |have|))
  }

  lemma {:induction false} CountGrows(have: seq<bool>, k: nat)
    requires k < |have| && have[k]
    ensures Count(have[..k]) < Count(have)
    decreases have
  {
    if k == |have| - 1 {
    } else {
      var rest := have[..|have| - 1];
      assert rest[..k] == have[..k];
      CountGrows(rest, k);
    }
  }

  lemma {:induction false} ImageEnds(slaves: seq<Slave>, have: seq<bool>)
    ensures var segments := ImageSegments(slaves, have);
            ProcessData.At(segments, |segments|) == InputEnd(slaves, false) + Count(have)
  {
    hide ImageCut, OutputCut, InputCut, InputEnd, OutputBytes, Fits, Extends, Count;
    SegmentsCoverImage(slaves, false, have);
    var segments := ImageSegments(slaves, have);
    assert segments[..|segments|] == segments;
    AllSums(ImageCut(slaves, false, have));
  }

  lemma {:induction false} AllSums(c: Cut)
    ensures Sum(All(c)) == Total(c)
  {
    assert All(c)[..|All(c)| - 1] == c.closed;
  }

  /** A status byte that counts alone counts once. */
  lemma {:induction false} AloneCounted(slaves: seq<Slave>, have: seq<bool>, n: nat)
    requires n <= |have| == |slaves|
    ensures var segments := ImageSegments(slaves, have);
            ProcessData.WkcSum(StatusPlaces(slaves, have, n), segments, |segments|) == AloneCount(slaves, have, n)
    decreases n
  {
    hide ImageSegments, Alone, InputEnd, Count, ProcessData.WkcSum, ProcessData.At, ProcessData.Pieces;
    var segments := ImageSegments(slaves, have);
    if n == 0 {
      ProcessData.NothingCounted(segments, |segments|);
    } else {
      AloneCounted(slaves, have, n - 1);
      var p, rest := StatusPlace(slaves, have, n - 1), StatusPlaces(slaves, have, n - 1);
      if Alone(slaves, have, n - 1) {
        AloneHas(slaves, have, n - 1);
        CountGrows(have, n - 1);
        ImageEnds(slaves, have);
        ProcessData.PiecesCount(p, segments, |segments|);
        ProcessData.WkcSumStep(p, rest, segments, |segments|);
      } else {
        assert [] + rest == rest;
      }
    }
  }

  lemma {:induction false} AloneHas(slaves: seq<Slave>, have: seq<bool>, k: nat)
    requires k < |have| == |slaves| && Alone(slaves, have, k)
    ensures have[k]
  {
  }

  /** The number a user compares with the counter of a cycle, twice the count for the outputs and
      that for the inputs, is that counter, plus the slaves counted once too often, plus the status
      bytes expected to count, less those that do. */
  lemma {:induction false} GroupCounted(slaves: seq<Slave>, have: seq<bool>)
    requires |have| == |slaves|
    ensures var segments, start := ImageSegments(slaves, have), 8 * OutputBytes(slaves, false);
            var outputsWKC := ExpectedFilled(slaves, OUTPUTS, 0, false, START);
            var inputsWKC := ExpectedFilled(slaves, INPUTS, start, false, OutputCut(slaves, false))
              + StatusHits(slaves, have);
            var over := 2 * Overcounts(slaves, OUTPUTS, 0, START)
              + Overcounts(slaves, INPUTS, start, OutputCut(slaves, false));
            2 * outputsWKC + inputsWKC
            == ProcessData.WkcSum(GroupPlaces(slaves, have), segments, |segments|)
               + over + StatusHits(slaves, have) - AloneCount(slaves, have, |have|)
  {
    hide Places, StatusPlaces, ProcessData.WkcSum, ExpectedFilled, Overcounts, OutputCut, OutputBytes, StatusHits,
      AloneCount, ImageCut;
    var segments := ImageSegments(slaves, have);
    var o := Places(slaves, OUTPUTS, PhaseStart(slaves, OUTPUTS, false), 2);
    var i := Places(slaves, INPUTS, PhaseStart(slaves, INPUTS, false), 1);
    var s := StatusPlaces(slaves, have, |have|);
    PhaseCounted(slaves, OUTPUTS, have, 2);
    PhaseCounted(slaves, INPUTS, have, 1);
    AloneCounted(slaves, have, |have|);
    ProcessData.WkcSumJoin(i, s, segments, |segments|);
    ProcessData.WkcSumJoin(o, i + s, segments, |segments|);
  }

  /** What slave `k` counts for being read, and when the program is right about its status byte: one
      of a slave with whole bytes of inputs is expected not to count, which is so exactly when no
      boundary lies between the last of them and the status byte; one of a slave with a few bits is
      expected to count, which is so exactly when there is a boundary; and one of a slave without
      inputs always counts. */
  lemma {:induction false} StatusExactly(slaves: seq<Slave>, have: seq<bool>, k: nat)
    requires k < |have| == |slaves| && have[k]
    ensures var segments, p, status := ImageSegments(slaves, have), InputPlace(slaves, k), StatusPlace(slaves, have, k);
            var divided := p.from < p.to
                           && ProcessData.Divided(ProcessData.Place(p.to - 1, status.to, 1), segments, |segments|);
            && (p.from < p.to <==> slaves[k].ibits > 0) && p.to <= status.from
            && ProcessData.ReadHits(p, status.from, segments, |segments|)
               == ProcessData.Pieces(p, segments, |segments|) + (if Alone(slaves, have, k) then 1 else 0)
            && (Alone(slaves, have, k) <==> slaves[k].ibits == 0 || divided)
            && ((Alone(slaves, have, k) <==> BytesOf(slaves[k].ibits) == 0) <==>
                  slaves[k].ibits == 0 || (slaves[k].ibits > 7 <==> !divided))
  {
    hide ImageSegments, InputEnd, Count, Before, ProcessData.At, ProcessData.Shares, ProcessData.Divided;
    var segments, p, status := ImageSegments(slaves, have), InputPlace(slaves, k), StatusPlace(slaves, have, k);
    CountGrows(have, k);
    ImageEnds(slaves, have);
    InputsBefore(slaves, k);
    ProcessData.StatusCounts(p, status.from, segments, |segments|);
    if slaves[k].ibits > 0 {
      ProcessData.SharesExactly(p, status.from, segments, |segments|);
    } else {
      SharesNothing(p, status.from, segments);
    }
  }

  lemma {:induction false} SharesNothing(p: ProcessData.Place, at: nat, segments: seq<nat>)
    requires p.from >= p.to
    ensures !ProcessData.Shares(p, at, segments, |segments|)
  {
  }

  /** Whole bytes for every slave with inputs, before the end of the inputs. */
  lemma {:induction false} InputsBefore(slaves: seq<Slave>, k: nat)
    requires k < |slaves|
    ensures var p := InputPlace(slaves, k);
            p.from <= p.to <= InputEnd(slaves, false) && (p.from < p.to <==> slaves[k].ibits > 0)
  {
    hide Cursor, Step, OutputBytes, Begin, Finish;
    var start := PhaseStart(slaves, INPUTS, false);
    var before, after := Before(slaves, INPUTS, start, false, k), Before(slaves, INPUTS, start, false, k + 1);
    BeforeNext(slaves, INPUTS, start, false, k);
    StepMoves(before, slaves[k].ibits, false);
    StepNothing(before, false);
    CursorWhole(slaves[..k], INPUTS, start);
    CursorWhole(slaves[..k + 1], INPUTS, start);
    CursorGrows(slaves, INPUTS, start, false, k + 1, |slaves|);
    assert slaves[..|slaves|] == slaves;
    BytesSome(slaves[k].ibits);
  }

  lemma {:induction false} BytesSome(bits: nat)
    ensures bits > 7 ==> BytesOf(bits) > 0
  {
  }

  // ----- Groups at the bounds -----

  /** One slave alone, from any cursor and cut. */
  lemma {:induction false} OneSlave(s: Slave, want: nat, start: nat, c: Cut)
    requires Fits(c)
    ensures c.max > 0 && Cursor([s], want, start, false) == Step(start, Bits(s, want), false)
    ensures Cuts([s], want, start, false, c) == StepCut(c, start, Bits(s, want), false)
    ensures Before([s], want, start, false, 0) == start
    ensures Before([s], want, start, false, 1) == Cursor([s], want, start, false)
  {
    hide Step;
    FitsMax(c);
    assert [s][..0] == [] && [s][..1] == [s];
  }

  /** Bytes that a slave without outputs takes when it comes first. */
  function InputBytes(s: Slave): nat
  {
    Step(0, s.ibits, false) / 8
  }

  lemma {:induction false} BytesTaken(s: Slave)
    requires s.ibits <= 8 * 1466
    ensures InputBytes(s) <= 1466 && Step(0, s.ibits, false) == 8 * InputBytes(s) && Step(0, 0, false) == 0
    ensures InputBytes(s) == if s.ibits > 7 then BytesOf(s.ibits) else if s.ibits > 0 then 1 else 0
  {
  }

  /** The image of one slave that has a status byte and no outputs. */
  lemma {:induction false} OneReader(s: Slave)
    requires s.obits == 0 && s.ibits <= 8 * 1466
    ensures var n := InputBytes(s);
            && ImageSegments([s], [true]) == (if n == 1466 then [1466, 1] else [n + 1])
            && InputPlace([s], 0) == ProcessData.Place(0, n, 1)
            && StatusPlace([s], [true], 0) == ProcessData.Place(n, n + 1, 1)
  {
    hide Step, InputBytes, StepCut;
    var n := InputBytes(s);
    BytesTaken(s);
    StartTotal();
    OneSlave(s, OUTPUTS, 0, START);
    StepNone(START, 0);
    assert OutputBytes([s], false) == 0 && OutputCut([s], false) == START;
    OneSlave(s, INPUTS, 0, START);
    StepSmall(s);
    assert InputCut([s], false) == Cut([], n, 1466) && InputEnd([s], false) == n;
    assert [true][..0] == [];
    assert Statuses([], InputCut([s], false)) == InputCut([s], false);
  }

  lemma {:induction false} StepNone(c: Cut, cursor: nat)
    requires c.max > 0
    ensures StepCut(c, cursor, 0, false) == c
  {
  }

  lemma {:induction false} StepSmall(s: Slave)
    requires s.ibits <= 8 * 1466
    ensures StepCut(START, 0, s.ibits, false) == Cut([], InputBytes(s), 1466)
  {
    BytesTaken(s);
  }

  /** The bytes that a program expects to count and that do, for one slave without outputs: they are
      as many unless it has up to seven bits of input, or just as many bytes as the first segment
      takes. */
  lemma {:induction false} OneStatus(s: Slave)
    requires s.obits == 0 && s.ibits <= 8 * 1466
    ensures StatusHits([s], [true]) == if s.ibits > 7 then 0 else 1
    ensures AloneCount([s], [true], 1) == if InputBytes(s) == 0 || InputBytes(s) == 1466 then 1 else 0
  {
    hide ProcessData.Shares, ProcessData.Divided, InputBytes, ImageSegments, InputPlace, StatusPlace;
    BytesTaken(s);
    OneReader(s);
    assert [true][..0] == [] && StatusHits([s], []) == 0;
    StatusExactly([s], [true], 0);
    if InputBytes(s) > 0 {
      DividedAtEnd(InputBytes(s));
    }
    BytesSome(s.ibits);
    assert AloneCount([s], [true], 0) == 0;
  }

  lemma {:induction false} DividedAtEnd(n: nat)
    requires 0 < n <= 1466
    ensures var segments := if n == 1466 then [1466, 1] else [n + 1];
            ProcessData.Divided(ProcessData.Place(n - 1, n + 1, 1), segments, |segments|) <==> n == 1466
  {
    var segments := if n == 1466 then [1466, 1] else [n + 1];
    assert segments[..0] == [] && segments[..1] == [segments[0]] && segments[..|segments|] == segments;
    assert ProcessData.At(segments, 0) == 0 && ProcessData.At(segments, 1) == segments[0];
    if n == 1466 {
      assert segments[..1] + [1] == segments;
      assert ProcessData.At(segments, 2) == 1467;
    }
  }

  /** Three slaves of 8191 bytes of output. */
  function ThreeLarge(sms: seq<Sm>): seq<Slave>
  {
    var s := Slave(8 * 8191, 0, sms, false);
    [s, s, s]
  }

  lemma {:induction false} LastSlave(rest: seq<Slave>, s: Slave, want: nat, start: nat, c: Cut)
    requires Fits(c)
    ensures var slaves, d := rest + [s], Cuts(rest, want, start, false, c);
            && Cursor(slaves, want, start, false) == Step(Cursor(rest, want, start, false), Bits(s, want), false)
            && d.max > 0
            && Cuts(slaves, want, start, false, c) == StepCut(d, Cursor(rest, want, start, false), Bits(s, want), false)
  {
    hide Step, StepCut;
    assert (rest + [s])[..|rest|] == rest;
    FitsMax(Cuts(rest, want, start, false, c));
  }

  lemma {:induction false} LargeStep(cursor: nat)
    requires cursor % 8 == 0
    ensures Step(cursor, 8 * 8191, false) == cursor + 8 * 8191
  {
  }

  function LargeBlock(c: Cut): Cut
  {
    if c.max > 0 then Block(c, 8191) else c
  }

  lemma {:induction false} LargeBlocks()
    ensures var c := LargeBlock(LargeBlock(LargeBlock(START)));
            |c.closed| == 16 && c.size == 817 && c.max == MAXLRWDATA
  {
    hide Chop;
    assert [] + [1466] == [1466];
    ChopOnce(START.(size := 8191));
    ChopMany(Cut([1466], 8191 - 1466, MAXLRWDATA), 4, 781);
    var c1 := LargeBlock(START);
    ChopMany(c1.(size := 781 + 8191), 6, 56);
    var c2 := LargeBlock(c1);
    ChopMany(c2.(size := 56 + 8191), 5, 817);
  }

  lemma {:induction false} ThreeOutputs(sms: seq<Sm>)
    ensures var slaves := ThreeLarge(sms);
            && Cursor(slaves, OUTPUTS, 0, false) == 24 * 8191
            && Cuts(slaves, OUTPUTS, 0, false, START) == LargeBlock(LargeBlock(LargeBlock(START)))
  {
    hide LargeBlock, Cuts, Cursor, Fits;
    StartTotal();
    NoneYet();
    var s := Slave(8 * 8191, 0, sms, false);
    assert [] + [s] == [s] && [s] + [s] + [s] == ThreeLarge(sms);
    OneLarge([], s);
    OneLarge([s], s);
    OneLarge([s] + [s], s);
  }

  lemma {:induction false} NoneYet()
    requires Fits(START)
    ensures Cursor([], OUTPUTS, 0, false) == 0 && Cuts([], OUTPUTS, 0, false, START) == START
  {
  }

  lemma {:induction false} OneLarge(rest: seq<Slave>, s: Slave)
    requires Fits(START) && s.obits == 8 * 8191 && Cursor(rest, OUTPUTS, 0, false) % 8 == 0
    ensures Cursor(rest + [s], OUTPUTS, 0, false) == Cursor(rest, OUTPUTS, 0, false) + 8 * 8191
    ensures Cuts(rest + [s], OUTPUTS, 0, false, START) == LargeBlock(Cuts(rest, OUTPUTS, 0, false, START))
  {
    hide Block, Step, Cuts, Cursor, Fits;
    LastSlave(rest, s, OUTPUTS, 0, START);
    LargeStep(Cursor(rest, OUTPUTS, 0, false));
  }

  lemma {:induction false} NoInputs(sms: seq<Sm>, start: nat, c: Cut)
    requires Fits(c)
    ensures Cursor(ThreeLarge(sms), INPUTS, start, false) == start
    ensures Cuts(ThreeLarge(sms), INPUTS, start, false, c) == c
  {
    hide Step;
    var s := Slave(8 * 8191, 0, sms, false);
    assert [] + [s] == [s] && [s] + [s] + [s] == ThreeLarge(sms);
    LastSlave([], s, INPUTS, start, c);
    LastSlave([s], s, INPUTS, start, c);
    LastSlave([s] + [s], s, INPUTS, start, c);
    StepNothing(start, false);
  }

  lemma {:induction false} NoStatuses(c: Cut)
    requires c.size <= MAXLRWDATA - FIRSTDCDATAGRAM
    ensures Statuses([false, false, false], c) == c
  {
    assert [false, false, false][..2] == [false, false] && [false, false][..1] == [false] && [false][..0] == [];
    assert Statuses([], c) == c && Statuses([false], c) == c && Statuses([false, false], c) == c;
  }

  /** They need 17 segments, one more than a cycle reads back. */
  lemma {:induction false} SeventeenSegments(sms: seq<Sm>)
    ensures var segments := ImageSegments(ThreeLarge(sms), [false, false, false]);
            |segments| == 17 && ProcessData.Used(segments) == 17
  {
    hide Cursor, Cuts, LargeBlock, Statuses, Fits;
    var slaves := ThreeLarge(sms);
    var c := OutputCut(slaves, false);
    ThreeOutputs(sms);
    LargeBlocks();
    NoInputs(sms, 8 * OutputBytes(slaves, false), c);
    NoStatuses(c);
  }

  /** Whatever the image of that group, a cycle does not do to it what one datagram would do. */
  lemma {:induction false} TooManySegments(sms: seq<Sm>, indices: seq<nat>, image: seq<byte>)
    requires |indices| >= 17
    requires var segments := ImageSegments(ThreeLarge(sms), [false, false, false]);
             ProcessData.At(segments, |segments|) == |image|
    ensures var segments := ImageSegments(ThreeLarge(sms), [false, false, false]);
            |segments| <= |indices| && !ProcessData.AsOneDatagram(segments, indices, image)
  {
    hide ProcessData.At, ProcessData.Used, ProcessData.AsOneDatagram, ImageSegments;
    SeventeenSegments(sms);
    ProcessData.CycleRefines(ImageSegments(ThreeLarge(sms), [false, false, false]), indices, image);
  }

  lemma {:induction false} PhasesFit(slaves: seq<Slave>, packed: bool)
    requires EnoughSegments(slaves, packed)
    ensures |Cuts(slaves, OUTPUTS, 0, packed, START).closed| < MAXIOSEGMENTS
            && |OutputCut(slaves, packed).closed| < MAXIOSEGMENTS
    ensures var start := 8 * OutputBytes(slaves, packed);
            |Cuts(slaves, INPUTS, start, packed, OutputCut(slaves, packed)).closed| < MAXIOSEGMENTS
    ensures |InputCut(slaves, packed).closed| < MAXIOSEGMENTS
    ensures forall h: seq<bool> :: |h| == |slaves| ==> |Statuses(h, InputCut(slaves, packed)).closed| < MAXIOSEGMENTS
  {
    hide Fits, Total, Filled, Cuts, Cursor, Statuses, Aligned, InputCut, OutputCut;
    var have := seq(|slaves|, i => false);
    assert |ImageCut(slaves, packed, have).closed| < MAXIOSEGMENTS;
    PhaseExtends(slaves, OUTPUTS, packed, have);
    PhaseExtends(slaves, INPUTS, packed, have);
    SegmentsCoverImage(slaves, packed, have);
    forall h: seq<bool> | |h| == |slaves| ensures |Statuses(h, InputCut(slaves, packed)).closed| < MAXIOSEGMENTS {
      assert |ImageCut(slaves, packed, h).closed| < MAXIOSEGMENTS;
    }
  }

  /** One phase and the byte that completes it. */
  method MapFilled(slaves: seq<Slave>, want: nat, base: nat, packed: bool, seg: Segmenter, ghost c: Cut)
    returns (maps: seq<seq<Fmmu>>, logAddr: nat, wkc: nat)
    requires Fits(c) && seg.Holds(c) && |Cuts(slaves, want, 8 * base, packed, c).closed| < MAXIOSEGMENTS
    requires var end := Cursor(slaves, want, 8 * base, packed);
             |Filled(Cuts(slaves, want, 8 * base, packed, c), end, want == INPUTS).closed| < MAXIOSEGMENTS
    requires forall k :: 0 <= k < |slaves| ==> Mappable(slaves[k], want)
    modifies seg, seg.IOsegment
    ensures |maps| == |slaves| && forall k :: 0 <= k < |slaves| ==> MappedAt(maps[k], slaves, want, 8 * base, packed, k)
    ensures logAddr == Aligned(Cursor(slaves, want, 8 * base, packed)) / 8
    ensures var end := Cursor(slaves, want, 8 * base, packed);
            seg.Holds(Filled(Cuts(slaves, want, 8 * base, packed, c), end, want == INPUTS))
    ensures wkc == ExpectedFilled(slaves, want, 8 * base, packed, c)
  {
    hide Mappable, MappedAt, Cuts, Cursor, Fits, Fill, Before, Expected;
    var bitPos;
    maps, logAddr, bitPos, wkc := MapPhase(slaves, want, base, packed, seg, c);
    if bitPos > 0 {
      logAddr, bitPos := logAddr + 1, 0;
      var hits := seg.AddFill(want == INPUTS, Cuts(slaves, want, 8 * base, packed, c));
      wkc := wkc + hits;
    }
  }

  /** Maps a whole group, byte addresses counting from the start of its image. */
  method MapGroup(slaves: seq<Slave>, packed: bool)
    returns (outs: seq<seq<Fmmu>>, ins: seq<seq<Fmmu>>, statuses: seq<seq<Fmmu>>, obytes: nat, ibytes: nat, slen: nat,
          seg: Segmenter, nsegments: nat, outputsWKC: nat, inputsWKC: nat, ghost have: seq<bool>)
    requires forall k :: 0 <= k < |slaves| ==> Mappable(slaves[k], OUTPUTS) && Mappable(slaves[k], INPUTS)
    requires EnoughSegments(slaves, packed)
    ensures |outs| == |ins| == |statuses| == |have| == |slaves|
    ensures forall k :: 0 <= k < |slaves| ==> have[k] == (slaves[k].mailbox && |outs[k]| + |ins[k]| < EC_MAXFMMU)
    ensures forall k :: 0 <= k < |slaves| ==>
              && MappedAt(outs[k], slaves, OUTPUTS, 0, packed, k)
              && MappedAt(ins[k], slaves, INPUTS, 8 * obytes, packed, k)
              && StatusAt(statuses[k], obytes + ibytes, have, k)
    ensures obytes == OutputBytes(slaves, packed) && obytes + ibytes == InputEnd(slaves, packed) && slen == Count(have)
    ensures seg.IOsegment.Length >= nsegments && seg.IOsegment[..nsegments] == All(ImageCut(slaves, packed, have))
    ensures outputsWKC == ExpectedFilled(slaves, OUTPUTS, 0, packed, START)
    ensures inputsWKC == ExpectedFilled(slaves, INPUTS, 8 * obytes, packed, OutputCut(slaves, packed))
            + StatusHits(slaves, have)
  {
    hide Mappable, MappedAt, StatusAt, Cuts, Cursor, Fits, Statuses, Filled, Extends, Total, Before, Count, Sum,
      Aligned, ExpectedFilled, StatusHits;
    seg := new Segmenter();
    StartTotal();
    PhasesFit(slaves, packed);
    SegmentsCoverImage(slaves, packed, []);
    outs, obytes, outputsWKC := MapFilled(slaves, OUTPUTS, 0, packed, seg, START);
    var end;
    ins, end, inputsWKC := MapFilled(slaves, INPUTS, obytes, packed, seg, OutputCut(slaves, packed));
    ibytes := end - obytes;
    var hits;
    statuses, have, end, hits := MapStatuses(slaves, outs, ins, obytes + ibytes, seg, InputCut(slaves, packed));
    inputsWKC := inputsWKC + hits;
    slen := end - obytes - ibytes;
    nsegments := seg.Finish(ImageCut(slaves, packed, have));
  }

  // ----- What the FMMUs of a group map -----

  /** FMMUs stay within the cursors of their phase, and those of an earlier slave, or earlier ones
      of the same slave, end before later ones begin. */
  lemma {:induction false} FmmusApart(a: seq<Fmmu>, b: seq<Fmmu>, slaves: seq<Slave>, want: nat, start: nat,
          packed: bool, k: nat, l: nat, i: nat, j: nat)
    requires k <= l < |slaves| && MappedAt(a, slaves, want, start, packed, k)
             && MappedAt(b, slaves, want, start, packed, l)
    requires i < |a| && j < |b| && (k == l ==> a == b && i < j)
    ensures start <= First(a[i]) && End(a[i]) <= First(b[j]) && End(b[j]) <= Cursor(slaves, want, start, packed)
  {
    hide Begin, Finish, Before, Cursor, Bits, First, End, Tiles, Reads;
    var before, later := Before(slaves, want, start, packed, k), Before(slaves, want, start, packed, l);
    var bits := Bits(slaves[k], want);
    TilesApart(a, Begin(before, bits), Finish(before, bits), i, if k == l then j else i);
    TilesApart(b, Begin(later, Bits(slaves[l], want)), Finish(later, Bits(slaves[l], want)), j, j);
    SomeBits(a, slaves, want, start, packed, k, i);
    SomeBits(b, slaves, want, start, packed, l, j);
    SlavesInOrder(slaves, want, start, packed, k, if k < l then l else |slaves|);
    SlavesInOrder(slaves, want, start, packed, l, |slaves|);
    PhaseBegins(slaves, want, start, packed, START);
  }

  lemma {:induction false} SomeBits(a: seq<Fmmu>, slaves: seq<Slave>, want: nat, start: nat, packed: bool, k: nat,
          i: nat)
    requires k < |slaves| && MappedAt(a, slaves, want, start, packed, k) && i < |a|
    ensures Bits(slaves[k], want) > 0
  {
  }

  /** So all outputs lie in the output bytes, and all inputs in the input bytes behind them. */
  lemma {:induction false} PhasesApart(slaves: seq<Slave>, packed: bool)
    ensures Cursor(slaves, OUTPUTS, 0, packed) <= 8 * OutputBytes(slaves, packed)
    ensures Cursor(slaves, INPUTS, 8 * OutputBytes(slaves, packed), packed) <= 8 * InputEnd(slaves, packed)
  {
    hide Cursor;
  }
}
