/** Laying the process data of one slave into the logical address space: which sync managers
    contribute, and what FMMUs map them (ETG.1000.4, section 6.6).

    Outputs and inputs are mapped by the same code but for the kind of sync manager and FMMU.
  */
module Mapping {

  const EC_MAXSM := 8

  /** Sync managers of kind 3 hold outputs, those of kind 4 inputs. */
  datatype Sm = Sm(kind: nat, start: nat, length: nat)

  datatype Fmmu = Fmmu(logStart: nat, startBit: nat, logLength: nat, endBit: nat, physStart: nat, kind: nat)

  // ----- Bits of the logical address space -----

  /** First bit an FMMU maps, and the bit behind its last. */
  function First(f: Fmmu): int { 8 * f.logStart + f.startBit }
  function End(f: Fmmu): int { 8 * (f.logStart + f.logLength - 1) + f.endBit + 1 }

  /** The FMMUs cover the bits `from` up to `to` one after the other. */
  predicate Tiles(fs: seq<Fmmu>, from: int, to: int)
  {
    if fs == [] then from == to
    else Tiles(fs[..|fs| - 1], from, First(fs[|fs| - 1])) && First(fs[|fs| - 1]) <= End(fs[|fs| - 1]) == to
  }

  lemma {:induction false} TilesGrow(fs: seq<Fmmu>, from: int, f: Fmmu)
    requires Tiles(fs, from, First(f)) && First(f) <= End(f)
    ensures Tiles(fs + [f], from, End(f))
    ensures OfType(fs, f.kind) ==> OfType(fs + [f], f.kind)
  {
    assert (fs + [f])[..|fs|] == fs;
  }

  /** Tiles do not overlap, come in order, and stay between the ends. */
  lemma {:induction false} TilesApart(fs: seq<Fmmu>, from: int, to: int, i: nat, j: nat)
    requires Tiles(fs, from, to) && i <= j < |fs|
    ensures from <= First(fs[i]) <= End(fs[i]) && End(fs[j]) <= to && (i < j ==> End(fs[i]) <= First(fs[j]))
    decreases fs
  {
    var last := |fs| - 1;
    if i < last {
      TilesApart(fs[..last], from, First(fs[last]), i, if j < last then j else last - 1);
      if j == last {
        TilesApart(fs[..last], from, First(fs[last]), i, i);
      }
    } else {
      TilesReach(fs[..last], from, First(fs[last]));
    }
  }

  /** The first tile begins at `from`, each next one where the one before ends, and the last ends at `to`. */
  lemma {:induction false} TilesMeet(fs: seq<Fmmu>, from: int, to: int, i: nat)
    requires Tiles(fs, from, to) && i < |fs|
    ensures First(fs[0]) == from && End(fs[|fs| - 1]) == to && (i > 0 ==> First(fs[i]) == End(fs[i - 1]))
    decreases fs
  {
    var last := |fs| - 1;
    if last > 0 {
      TilesMeet(fs[..last], from, First(fs[last]), if i < last then i else 0);
    }
  }

  lemma {:induction false} TilesReach(fs: seq<Fmmu>, from: int, to: int)
    requires Tiles(fs, from, to)
    ensures from <= to
    decreases fs
  {
    if fs != [] {
      TilesReach(fs[..|fs| - 1], from, First(fs[|fs| - 1]));
    }
  }

  function Aligned(bit: nat): nat
  {
    (bit + 7) / 8 * 8
  }

  /** Bytes of a slave's record: none for a slave of up to seven bits. */
  function BytesOf(bits: nat): nat
  {
    if bits > 7 then (bits + 7) / 8 else 0
  }

  /** Bytes that the FMMUs of a slave must reach. */
  function Need(bits: nat): nat
  {
    (bits + 7) / 8
  }

  /** Where the data of a slave begin and end: a slave of up to seven bits goes where the cursor is,
      a larger one takes whole bytes. */
  function Begin(cursor: nat, bits: nat): nat
  {
    if bits > 7 then Aligned(cursor) else cursor
  }

  function Finish(cursor: nat, bits: nat): nat
  {
    Begin(cursor, bits) + if bits > 7 then 8 * BytesOf(bits) else bits
  }

  // ----- Choosing sync managers -----

  /** A sync manager of the wanted kind; the last one is taken for one when there is no other. */
  predicate Eligible(sms: seq<Sm>, want: nat, i: nat)
    requires |sms| == EC_MAXSM
  {
    i < EC_MAXSM && (sms[i].kind == want || i == EC_MAXSM - 1)
  }

  /** The first eligible sync manager from `from` on. */
  predicate Least(sms: seq<Sm>, want: nat, from: nat, i: nat)
    requires |sms| == EC_MAXSM
  {
    from <= i && Eligible(sms, want, i) && forall j :: from <= j < i ==> !Eligible(sms, want, j)
  }

  /** The next sync manager of a kind from `smc` on; the last one when there is none. */
  method SkipTo(sms: seq<Sm>, want: nat, smc0: nat) returns (smc: nat)
    requires |sms| == EC_MAXSM && smc0 < EC_MAXSM
    ensures smc < EC_MAXSM && Least(sms, want, smc0, smc)
  {
    smc := smc0;
    while smc < EC_MAXSM - 1 && sms[smc].kind != want
      invariant smc0 <= smc < EC_MAXSM
      invariant forall i :: smc0 <= i < smc ==> !Eligible(sms, want, i)
    {
      smc := smc + 1;
    }
  }

  /** There is an eligible sync manager with bytes in it from `smc` on. */
  predicate Fed(sms: seq<Sm>, want: nat, smc: nat)
    requires |sms| == EC_MAXSM
  {
    exists i :: smc <= i < EC_MAXSM && Eligible(sms, want, i) && sms[i].length > 0
  }

  const WORD := 0x1_0000

  predicate WordSms(sms: seq<Sm>)
    ensures WordSms(sms) ==> |sms| == EC_MAXSM
  {
    |sms| == EC_MAXSM && forall i :: 0 <= i < EC_MAXSM ==> sms[i].length < WORD
  }

  /** The count of bytes has sixteen bits, the count of bits has not. */
  predicate Counts(bitCount: nat, count: nat)
  {
    bitCount % 8 == 0 && count == bitCount / 8 % WORD
  }

  lemma {:induction false} CountOn(bitCount: nat, count: nat, length: nat)
    requires Counts(bitCount, count)
    ensures Counts(bitCount + 8 * length, (count + length) % WORD)
  {
    assert (bitCount + 8 * length) / 8 == bitCount / 8 + length;
  }

  /** A sync manager that has bytes to give. */
  predicate Gives(sms: seq<Sm>, want: nat, i: nat)
    requires |sms| == EC_MAXSM
  {
    Eligible(sms, want, i) && sms[i].length > 0
  }

  /** Bits in the eligible sync managers [lo, hi). */
  function BitsIn(sms: seq<Sm>, want: nat, lo: nat, hi: nat): nat
    requires |sms| == EC_MAXSM
    decreases hi
  {
    if hi <= lo then 0
    else BitsIn(sms, want, lo, hi - 1) + if Eligible(sms, want, hi - 1) then 8 * sms[hi - 1].length else 0
  }

  /** Sync manager `j` begins no later than `i` ends, on sixteen bits. */
  predicate Joined(sms: seq<Sm>, i: nat, j: nat)
    requires |sms| == EC_MAXSM && i < EC_MAXSM && j < EC_MAXSM
  {
    sms[j].start <= (sms[i].start + sms[i].length) % WORD
  }

  /** The sync managers one FMMU takes: from the first to the last one counted, and the one at which
      the next FMMU goes on. */
  datatype Run = Run(first: nat, last: nat, stop: nat)

  /** From the first to the last all eligible sync managers join and more bits were wanted before each. */
  predicate Joins(sms: seq<Sm>, want: nat, bits: nat, had: nat, first: nat, last: nat)
    requires |sms| == EC_MAXSM
  {
    && first <= last && Eligible(sms, want, first) && Eligible(sms, want, last)
    && forall i, j :: first <= i < j <= last && Eligible(sms, want, i) && Least(sms, want, i + 1, j) ==>
         Joined(sms, i, j) && had + BitsIn(sms, want, first, i + 1) < bits
  }

  /** The run ends when there are bits enough, with the last sync manager, or before one that does not
      join; `had` bits were counted before. */
  predicate IsRun(sms: seq<Sm>, want: nat, bits: nat, had: nat, r: Run)
    requires |sms| == EC_MAXSM
  {
    && Joins(sms, want, bits, had, r.first, r.last)
    && if had + BitsIn(sms, want, r.first, r.last + 1) >= bits || r.last == EC_MAXSM - 1 then r.stop == r.last
       else Least(sms, want, r.last + 1, r.stop) && !Joined(sms, r.last, r.stop)
  }

  lemma {:induction false} BitsInNext(sms: seq<Sm>, want: nat, lo: nat, mid: nat, next: nat)
    requires |sms| == EC_MAXSM && lo <= mid && Least(sms, want, mid, next)
    ensures BitsIn(sms, want, lo, next + 1) == BitsIn(sms, want, lo, mid) + 8 * sms[next].length
    decreases next
  {
    BitsInSkips(sms, want, lo, mid, next);
  }

  lemma {:induction false} BitsInSkips(sms: seq<Sm>, want: nat, lo: nat, mid: nat, hi: nat)
    requires |sms| == EC_MAXSM && lo <= mid <= hi && forall i :: mid <= i < hi ==> !Eligible(sms, want, i)
    ensures BitsIn(sms, want, lo, hi) == BitsIn(sms, want, lo, mid)
    decreases hi
  {
    if mid < hi {
      BitsInSkips(sms, want, lo, mid, hi - 1);
    }
  }

  lemma {:induction false} JoinsNext(sms: seq<Sm>, want: nat, bits: nat, had: nat, first: nat, last: nat, next: nat)
    requires |sms| == EC_MAXSM && Joins(sms, want, bits, had, first, last) && Least(sms, want, last + 1, next)
    requires Joined(sms, last, next) && had + BitsIn(sms, want, first, last + 1) < bits
    ensures Joins(sms, want, bits, had, first, next)
  {
    forall i, j | first <= i < j <= next && Eligible(sms, want, i) && Least(sms, want, i + 1, j)
      ensures Joined(sms, i, j) && had + BitsIn(sms, want, first, i + 1) < bits
    {
      if j > last {
        assert Eligible(sms, want, j) && j == next;
        assert i >= last && i == last;
      }
    }
  }

  lemma {:induction false} NoneIn(sms: seq<Sm>, want: nat, lo: nat, hi: nat)
    requires |sms| == EC_MAXSM && hi <= EC_MAXSM
    ensures BitsIn(sms, want, lo, hi) == 0 <==>
            forall i :: lo <= i < hi && Eligible(sms, want, i) ==> sms[i].length == 0
    decreases hi
  {
    if lo < hi {
      NoneIn(sms, want, lo, hi - 1);
    }
  }

  /** The eligible sync manager before `j`. */
  lemma {:induction false} Before(sms: seq<Sm>, want: nat, lo: nat, j: nat, hi: nat) returns (i: nat)
    requires |sms| == EC_MAXSM && lo < hi <= j && Eligible(sms, want, lo) && Eligible(sms, want, j)
    requires forall k :: hi <= k < j ==> !Eligible(sms, want, k)
    ensures lo <= i < j && Eligible(sms, want, i) && Least(sms, want, i + 1, j)
    decreases hi
  {
    if Eligible(sms, want, hi - 1) {
      i := hi - 1;
    } else {
      i := Before(sms, want, lo, j, hi - 1);
    }
  }

  /** What a run gives: bytes in its last sync manager when there are bits enough, one sync manager when
      there were before, and it moves on when it gives none. */
  lemma {:induction false} RunGives(sms: seq<Sm>, want: nat, bits: nat, had: nat, from: nat, r: Run)
    requires WordSms(sms) && IsRun(sms, want, bits, had, r) && Least(sms, want, from, r.first)
    requires had >= bits ==> Gives(sms, want, from)
    ensures from <= r.stop < EC_MAXSM
    ensures var total := had + BitsIn(sms, want, r.first, r.last + 1);
            && (total >= bits ==> Gives(sms, want, r.stop))
            && (had >= bits ==> total == had + 8 * sms[r.stop].length)
            && (bits > 0 && total == 0 && Fed(sms, want, from) ==> r.stop > from && Fed(sms, want, r.stop))
            && (had == 0 && !Fed(sms, want, from) ==> total == 0)
  {
    NoneIn(sms, want, r.first, r.last + 1);
    if r.first < r.last {
      var i := Before(sms, want, r.first, r.last, r.last);
      BitsInNext(sms, want, r.first, i + 1, r.last);
      assert Joined(sms, i, r.last);
    } else {
      RunBegins(sms, want, bits, had, r.first);
    }
  }

  lemma {:induction false} RunBegins(sms: seq<Sm>, want: nat, bits: nat, had: nat, first: nat)
    requires |sms| == EC_MAXSM && Eligible(sms, want, first)
    ensures Joins(sms, want, bits, had, first, first)
    ensures BitsIn(sms, want, first, first + 1) == 8 * sms[first].length
  {
    BitsInNext(sms, want, first, first, first);
  }

  /** The sync managers of one FMMU: as long as more bits are wanted and they connect.  The counts
      are never reset between the FMMUs of a slave, and once there are bits enough the last sync
      manager is counted again. */
  method TakeSms(sms: seq<Sm>, want: nat, smc0: nat, bits: nat, bitCount0: nat, count0: nat)
    returns (smc: nat, bitCount: nat, count: nat, physStart: nat, ghost run: Run)
    requires WordSms(sms) && smc0 < EC_MAXSM && Counts(bitCount0, count0) && bits < WORD
    requires bitCount0 >= bits ==> Gives(sms, want, smc0)
    ensures smc0 <= smc < EC_MAXSM && Counts(bitCount, count) && bitCount >= bitCount0
    ensures IsRun(sms, want, bits, bitCount0, run) && Least(sms, want, smc0, run.first) && smc == run.stop
    ensures physStart == sms[run.first].start
    ensures bitCount == bitCount0 + BitsIn(sms, want, run.first, run.last + 1)
    ensures bitCount >= bits ==> Gives(sms, want, smc)
    ensures bitCount0 >= bits ==> bitCount == bitCount0 + 8 * sms[smc].length
    ensures bits > 0 && bitCount == 0 && Fed(sms, want, smc0) ==> smc > smc0 && Fed(sms, want, smc)
    ensures bitCount0 == 0 && !Fed(sms, want, smc0) ==> bitCount == 0
  {
    hide Counts, Joins, BitsIn, Least, Fed, Gives;
    smc := SkipTo(sms, want, smc0);
    physStart := sms[smc].start;
    CountOn(bitCount0, count0, sms[smc].length);
    count := (count0 + sms[smc].length) % WORD;
    bitCount := bitCount0 + 8 * sms[smc].length;
    var endAddr := (sms[smc].start + sms[smc].length) % WORD;
    ghost var first := smc;
    run := Run(smc, smc, smc);
    RunBegins(sms, want, bits, bitCount0, smc);
    while bitCount < bits && smc < EC_MAXSM - 1
      invariant first <= smc < EC_MAXSM && run == Run(first, smc, smc)
      invariant Joins(sms, want, bits, bitCount0, first, smc) && endAddr == (sms[smc].start + sms[smc].length) % WORD
      invariant bitCount == bitCount0 + BitsIn(sms, want, first, smc + 1) && Counts(bitCount, count)
    {
      ghost var last := smc;
      smc := SkipTo(sms, want, smc + 1);
      run := run.(stop := smc);
      if sms[smc].start > endAddr {
        break;
      }
      BitsInNext(sms, want, first, last + 1, smc);
      JoinsNext(sms, want, bits, bitCount0, first, last, smc);
      run := run.(last := smc);
      CountOn(bitCount, count, sms[smc].length);
      count := (count + sms[smc].length) % WORD;
      bitCount := bitCount + 8 * sms[smc].length;
      endAddr := (sms[smc].start + sms[smc].length) % WORD;
    }
    RunGives(sms, want, bits, bitCount0, smc0, run);
  }

  /** A count that has come to 0 again moves on with the next sync manager. */
  lemma {:induction false} Unwraps(bitCount: nat, count: nat, length: nat, count': nat)
    requires Counts(bitCount, count) && Counts(bitCount + 8 * length, count') && 0 < length < WORD
    ensures count == 0 ==> count' == length
    ensures count == 0 && bitCount > 0 ==> bitCount >= 8 * WORD
  {
    CountOn(bitCount, count, length);
  }

  lemma {:induction false} ZeroBits(bitCount: nat, count: nat)
    requires Counts(bitCount, count) && count == 0 && bitCount > 0
    ensures bitCount >= 8 * WORD
  {
  }

  /** The count of bytes is that of bits, and the one that has come to 0 again moves on with the next
      sync manager. */
  lemma {:induction false} CountGoesOn(sms: seq<Sm>, want: nat, smc: nat, bits: nat, bitCount0: nat, count0: nat,
          bitCount: nat, count: nat)
    requires WordSms(sms) && bits < WORD && Counts(bitCount0, count0) && Counts(bitCount, count)
    requires bitCount >= bits ==> Gives(sms, want, smc)
    requires smc < EC_MAXSM && bitCount0 >= bits ==> bitCount == bitCount0 + 8 * sms[smc].length
    requires smc < EC_MAXSM && bitCount >= bitCount0
    ensures count == Counted(bitCount)
    ensures count0 == 0 && bitCount0 > 0 ==> count > 0
    ensures bitCount >= bits && count == 0 ==> bitCount > 0
  {
    hide Counts;
    CountIs(bitCount, count);
    if count0 == 0 && bitCount0 > 0 {
      ZeroBits(bitCount0, count0);
      GivesSome(sms, want, smc);
      Unwraps(bitCount0, count0, sms[smc].length, count);
    }
  }

  // ----- Mapping a slave -----

  const OUTPUTS := 3
  const INPUTS := 4

  /** Input FMMUs are of type 1, output FMMUs of type 2. */
  function FmmuType(want: nat): nat
  {
    if want == OUTPUTS then 2 else 1
  }

  predicate OfType(fs: seq<Fmmu>, kind: nat)
  {
    forall i :: 0 <= i < |fs| ==> fs[i].kind == kind
  }

  /** Moves a cursor of byte address and bit on by `bits`, at most thirteen. */
  function Carry(logAddr: nat, bitPos: nat): (nat, nat)
  {
    if bitPos > 7 then (logAddr + 1, bitPos - 8) else (logAddr, bitPos)
  }

  /** A slave of more than seven bits has whole bytes. */
  predicate WithinBytes(f: Fmmu, bits: nat)
  {
    f.startBit <= 7 && f.endBit <= 7 && (bits > 7 ==> f.startBit == 0 && f.endBit == 7)
  }

  /** One FMMU for a slave of up to seven bits. */
  method MapBits(bits: nat, physStart: nat, want: nat, logAddr: nat, bitPos: nat)
    returns (f: Fmmu, newAddr: nat, newPos: nat)
    requires 0 < bits <= 7 && bitPos <= 7
    ensures First(f) == 8 * logAddr + bitPos && End(f) == First(f) + bits && f.logLength > 0
    ensures 8 * newAddr + newPos == End(f) && newPos <= 7
    ensures f.physStart == physStart && f.kind == FmmuType(want) && f.startBit <= 7 && f.endBit <= 7
  {
    var last := Carry(logAddr, bitPos + bits - 1);
    var size := last.0 - logAddr + 1;
    f := Fmmu(logAddr, bitPos, size, last.1, physStart, FmmuType(want));
    var next := Carry(last.0, last.1 + 1);
    newAddr, newPos := next.0, next.1;
  }

  /** One FMMU: for the bits of a slave without whole bytes, else for all bytes that were counted, or
      as many as the slave still needs. */
  method MapNext(bits: nat, left: nat, count: nat, physStart: nat, want: nat, logAddr: nat, bitPos: nat)
    returns (f: Fmmu, newAddr: nat, newPos: nat)
    requires 0 < bits && bitPos <= 7
    ensures WithinBytes(f, bits) && f.physStart == physStart && f.kind == FmmuType(want)
    ensures First(f) <= End(f) == 8 * newAddr + newPos && newPos <= 7
    ensures bits <= 7 ==> First(f) == 8 * logAddr + bitPos && End(f) == First(f) + bits && f.logLength > 0
    ensures bits > 7 ==> f.logLength == if count > left then left else count
    ensures bits > 7 ==>
              && newPos == 0 && f.logStart == logAddr + (if bitPos > 0 then 1 else 0) && First(f) == 8 * f.logStart
              && newAddr == f.logStart + f.logLength
  {
    if BytesOf(bits) == 0 {
      f, newAddr, newPos := MapBits(bits, physStart, want, logAddr, bitPos);
    } else {
      var start := if bitPos > 0 then logAddr + 1 else logAddr;
      var size := if count > left then left else count;
      f, newAddr, newPos := Fmmu(start, 0, size, 7, physStart, FmmuType(want)), start + size, 0;
    }
  }

  lemma {:induction false} CountsNone()
    ensures Counts(0, 0)
  {
  }

  lemma {:induction false} GivesSome(sms: seq<Sm>, want: nat, i: nat)
    requires WordSms(sms) && Gives(sms, want, i)
    ensures i < EC_MAXSM && 0 < sms[i].length < WORD
  {
  }

  /** Bits counted in all of `runs`. */
  function Had(sms: seq<Sm>, want: nat, runs: seq<Run>): nat
    requires |sms| == EC_MAXSM
  {
    if runs == [] then 0
    else Had(sms, want, runs[..|runs| - 1]) + BitsIn(sms, want, runs[|runs| - 1].first, runs[|runs| - 1].last + 1)
  }

  /** The count of bytes, on sixteen bits. */
  function Counted(bits: nat): nat
  {
    bits / 8 % WORD
  }

  /** FMMU `k` starts where its run does: at the first eligible sync manager, or at the one where the
      run before stopped.  It takes all bytes counted so far, on sixteen bits and not reset between
      FMMUs, or as many as the slave still needs, and there is no further one when it needs none. */
  predicate ReadsAt(fs: seq<Fmmu>, sms: seq<Sm>, want: nat, bits: nat, runs: seq<Run>, k: nat)
    requires |sms| == EC_MAXSM && |fs| == |runs| && k < |runs|
  {
    && IsRun(sms, want, bits, Had(sms, want, runs[..k]), runs[k])
    && (if k == 0 then Least(sms, want, 0, runs[k].first) else runs[k].first == runs[k - 1].stop)
    && fs[k].physStart == sms[runs[k].first].start && WithinBytes(fs[k], bits)
    && (k > 0 ==> bits > 7 && fs[k].logStart - fs[0].logStart < BytesOf(bits))
    && (bits > 7 ==>
          var counted := Counted(Had(sms, want, runs[..k + 1]));
          var left := BytesOf(bits) - (fs[k].logStart - fs[0].logStart);
          fs[k].logLength == if counted > left then left else counted)
  }

  predicate Reads(fs: seq<Fmmu>, sms: seq<Sm>, want: nat, bits: nat, runs: seq<Run>)
    requires |sms| == EC_MAXSM
  {
    |fs| == |runs| && forall k :: 0 <= k < |runs| ==> ReadsAt(fs, sms, want, bits, runs, k)
  }

  lemma {:induction false} ReadsGrow(fs: seq<Fmmu>, sms: seq<Sm>, want: nat, bits: nat, runs: seq<Run>, f: Fmmu, r: Run)
    requires |sms| == EC_MAXSM && Reads(fs, sms, want, bits, runs)
    requires IsRun(sms, want, bits, Had(sms, want, runs), r)
    requires Least(sms, want, if runs == [] then 0 else runs[|runs| - 1].stop, r.first)
    requires f.physStart == sms[r.first].start && WithinBytes(f, bits)
    requires fs != [] ==> bits > 7 && f.logStart - fs[0].logStart < BytesOf(bits)
    requires bits > 7 ==>
               var counted := Counted(Had(sms, want, runs) + BitsIn(sms, want, r.first, r.last + 1));
               var left := BytesOf(bits) - if fs == [] then 0 else f.logStart - fs[0].logStart;
               f.logLength == if counted > left then left else counted
    ensures Reads(fs + [f], sms, want, bits, runs + [r])
    ensures Had(sms, want, runs + [r]) == Had(sms, want, runs) + BitsIn(sms, want, r.first, r.last + 1)
  {
    hide IsRun, BitsIn;
    var fs', runs' := fs + [f], runs + [r];
    assert runs'[..|runs|] == runs && runs'[..|runs| + 1] == runs';
    if runs != [] {
      assert ReadsAt(fs, sms, want, bits, runs, |runs| - 1);
      StopsEligible(sms, want, bits, Had(sms, want, runs[..|runs| - 1]), runs[|runs| - 1]);
    }
    forall k | 0 <= k < |runs'| ensures ReadsAt(fs', sms, want, bits, runs', k) {
      if k < |runs| {
        assert ReadsAt(fs, sms, want, bits, runs, k) && runs'[..k] == runs[..k] && runs'[..k + 1] == runs[..k + 1];
      }
    }
  }

  lemma {:induction false} StopsEligible(sms: seq<Sm>, want: nat, bits: nat, had: nat, r: Run)
    requires |sms| == EC_MAXSM && IsRun(sms, want, bits, had, r)
    ensures Eligible(sms, want, r.stop)
  {
  }

  /** Outputs are mapped by FMMUs of type 2, inputs by those of type 1. */
  ghost predicate Mapped(fs: seq<Fmmu>, bits: nat, want: nat, sms: seq<Sm>, cursor: nat)
    requires |sms| == EC_MAXSM
  {
    && fs != [] && Tiles(fs, Begin(cursor, bits), Finish(cursor, bits)) && OfType(fs, if want == 3 then 2 else 1)
    && exists runs :: Reads(fs, sms, want, bits, runs)
  }

  lemma {:induction false} NoFewer(sms: seq<Sm>, want: nat, lo: nat, mid: nat, hi: nat)
    requires |sms| == EC_MAXSM && lo <= mid <= hi
    ensures BitsIn(sms, want, lo, mid) <= BitsIn(sms, want, lo, hi)
    decreases hi
  {
    if mid < hi {
      NoFewer(sms, want, lo, mid, hi - 1);
    }
  }

  /** A run that has bits enough with its first sync manager. */
  lemma {:induction false} OneSm(sms: seq<Sm>, want: nat, bits: nat, had: nat, r: Run)
    requires WordSms(sms) && IsRun(sms, want, bits, had, r) && had + 8 * sms[r.first].length >= bits
    ensures r.last == r.first && BitsIn(sms, want, r.first, r.last + 1) == 8 * sms[r.first].length
  {
    RunBegins(sms, want, bits, had, r.first);
    if r.first < r.last {
      var j := Before(sms, want, r.first, r.last, r.last);
      assert Joined(sms, j, r.last);
      NoFewer(sms, want, r.first, r.first + 1, j + 1);
    }
  }

  /** A slave all of whose bytes are in the first sync manager of the kind gets one FMMU, from the start
      of that sync manager to its place. */
  lemma {:induction false} OneFmmu(fs: seq<Fmmu>, bits: nat, want: nat, sms: seq<Sm>, cursor: nat, i: nat)
    requires WordSms(sms) && Mapped(fs, bits, want, sms, cursor) && bits > 7 && i < EC_MAXSM
    requires sms[i].kind == want && 8 * sms[i].length >= bits && forall j :: 0 <= j < i ==> sms[j].kind != want
    ensures fs == [Fmmu((cursor + 7) / 8, 0, (bits + 7) / 8, 7, sms[i].start, if want == 3 then 2 else 1)]
  {
    hide IsRun, BitsIn;
    var runs: seq<Run> :| Reads(fs, sms, want, bits, runs);
    assert ReadsAt(fs, sms, want, bits, runs, 0);
    assert runs[..1] == [runs[0]] && runs[..1][..0] == [];
    assert Eligible(sms, want, i);
    OneSm(sms, want, bits, 0, runs[0]);
    MappedPlace(fs, bits, want, sms, cursor, 0);
    if |fs| > 1 {
      MappedPlace(fs, bits, want, sms, cursor, 1);
    }
    assert fs == [fs[0]];
  }

  /** The place of an FMMU of a slave of whole bytes: the first begins at the next byte, each further one
      where the one before ends and before the end of the slave, and the last ends there. */
  lemma {:induction false} MappedPlace(fs: seq<Fmmu>, bits: nat, want: nat, sms: seq<Sm>, cursor: nat, k: nat)
    requires |sms| == EC_MAXSM && Mapped(fs, bits, want, sms, cursor) && bits > 7 && k < |fs|
    ensures fs[k].startBit == 0 && fs[k].endBit == 7 && fs[k].kind == (if want == 3 then 2 else 1)
    ensures k == 0 ==> fs[k].logStart == (cursor + 7) / 8
    ensures k > 0 ==>
              && fs[k].logStart == fs[k - 1].logStart + fs[k - 1].logLength
              && fs[k].logStart < fs[0].logStart + (bits + 7) / 8
    ensures k == |fs| - 1 ==> fs[k].logStart + fs[k].logLength == (cursor + 7) / 8 + (bits + 7) / 8
  {
    hide Tiles, IsRun, Had;
    var runs: seq<Run> :| Reads(fs, sms, want, bits, runs);
    assert ReadsAt(fs, sms, want, bits, runs, k) && (k > 0 ==> ReadsAt(fs, sms, want, bits, runs, k - 1));
    TilesMeet(fs, Begin(cursor, bits), Finish(cursor, bits), k);
  }

  /** A run over two sync managers that join, or over the first of two that do not. */
  lemma {:induction false} RunOfTwo(sms: seq<Sm>, want: nat, bits: nat, r: Run, i: nat, j: nat)
    requires WordSms(sms) && IsRun(sms, want, bits, 0, r) && r.first == i < j && Least(sms, want, i + 1, j)
    requires 8 * sms[i].length < bits <= 8 * (sms[i].length + sms[j].length)
    ensures Joined(sms, i, j) ==>
              r.last == j && BitsIn(sms, want, i, r.last + 1) == 8 * (sms[i].length + sms[j].length)
    ensures !Joined(sms, i, j) ==> r.last == i && r.stop == j && BitsIn(sms, want, i, r.last + 1) == 8 * sms[i].length
  {
    RunBegins(sms, want, bits, 0, i);
    BitsInNext(sms, want, i, i + 1, j);
    if r.last > i && r.last != j {
      assert Eligible(sms, want, r.last) && r.last > j;
      var p := Before(sms, want, j, r.last, r.last);
      assert Joined(sms, p, r.last);
      NoFewer(sms, want, i, j + 1, p + 1);
    } else if r.last == j {
      assert Eligible(sms, want, i) && Joined(sms, i, j);
    }
  }

  /** The second run takes the second sync manager. */
  lemma {:induction false} SecondRun(sms: seq<Sm>, want: nat, bits: nat, runs: seq<Run>, i: nat, j: nat)
    requires WordSms(sms) && |runs| > 1 && i < EC_MAXSM && j < EC_MAXSM
    requires IsRun(sms, want, bits, Had(sms, want, runs[..1]), runs[1]) && runs[1].first == j
    requires Had(sms, want, runs[..1]) == 8 * sms[i].length && bits <= 8 * (sms[i].length + sms[j].length)
    ensures Had(sms, want, runs[..2]) == 8 * (sms[i].length + sms[j].length)
  {
    OneSm(sms, want, bits, Had(sms, want, runs[..1]), runs[1]);
    assert runs[..2][..1] == runs[..1];
  }

  /** The bytes of a slave are in sync managers `i` and `j`, the first two of the kind. */
  predicate InTwo(bits: nat, want: nat, sms: seq<Sm>, i: nat, j: nat)
    requires WordSms(sms)
  {
    && bits > 7 && i < j < EC_MAXSM && sms[i].kind == want == sms[j].kind
    && (forall k :: 0 <= k < j && k != i ==> sms[k].kind != want)
    && 0 < 8 * sms[i].length < bits <= 8 * (sms[i].length + sms[j].length)
    && sms[i].length + sms[j].length < WORD && sms[i].start + sms[i].length < WORD
  }

  /** One FMMU maps both when the second begins no later than the first ends. */
  lemma {:induction false} JoinedSms(fs: seq<Fmmu>, bits: nat, want: nat, sms: seq<Sm>, cursor: nat, i: nat, j: nat)
    requires WordSms(sms) && Mapped(fs, bits, want, sms, cursor) && InTwo(bits, want, sms, i, j)
    requires sms[j].start <= sms[i].start + sms[i].length
    ensures fs == [Fmmu((cursor + 7) / 8, 0, (bits + 7) / 8, 7, sms[i].start, if want == 3 then 2 else 1)]
  {
    hide IsRun, BitsIn, Tiles;
    var runs: seq<Run> :| Reads(fs, sms, want, bits, runs);
    assert ReadsAt(fs, sms, want, bits, runs, 0);
    assert runs[..1] == [runs[0]] && runs[..1][..0] == [];
    assert Eligible(sms, want, i) && Least(sms, want, i + 1, j);
    RunOfTwo(sms, want, bits, runs[0], i, j);
    MappedPlace(fs, bits, want, sms, cursor, 0);
    if |fs| > 1 {
      MappedPlace(fs, bits, want, sms, cursor, 1);
    }
    assert fs == [fs[0]];
  }

  /** Otherwise each gets its own. */
  lemma {:induction false} ApartFirst(fs: seq<Fmmu>, bits: nat, want: nat, sms: seq<Sm>, cursor: nat, i: nat, j: nat,
          runs: seq<Run>)
    requires WordSms(sms) && Mapped(fs, bits, want, sms, cursor) && InTwo(bits, want, sms, i, j)
    requires Reads(fs, sms, want, bits, runs) && sms[j].start > sms[i].start + sms[i].length
    ensures |fs| > 1 && runs[0].stop == j && Had(sms, want, runs[..1]) == 8 * sms[i].length
    ensures fs[0] == Fmmu((cursor + 7) / 8, 0, sms[i].length, 7, sms[i].start, if want == 3 then 2 else 1)
  {
    hide IsRun, BitsIn, Tiles;
    MappedPlace(fs, bits, want, sms, cursor, 0);
    assert ReadsAt(fs, sms, want, bits, runs, 0);
    assert runs[..1] == [runs[0]] && runs[..1][..0] == [];
    assert Eligible(sms, want, i) && Least(sms, want, i + 1, j);
    RunOfTwo(sms, want, bits, runs[0], i, j);
  }

  lemma {:induction false} ApartSms(fs: seq<Fmmu>, bits: nat, want: nat, sms: seq<Sm>, cursor: nat, i: nat, j: nat)
    requires WordSms(sms) && Mapped(fs, bits, want, sms, cursor) && InTwo(bits, want, sms, i, j)
    requires sms[j].start > sms[i].start + sms[i].length
    ensures var at, bytes, n := (cursor + 7) / 8, (bits + 7) / 8, sms[i].length;
            var kind := if want == 3 then 2 else 1;
            fs == [Fmmu(at, 0, n, 7, sms[i].start, kind), Fmmu(at + n, 0, bytes - n, 7, sms[j].start, kind)]
  {
    hide IsRun, BitsIn, Tiles, Least, Had;
    var runs: seq<Run> :| Reads(fs, sms, want, bits, runs);
    ApartFirst(fs, bits, want, sms, cursor, i, j, runs);
    MappedPlace(fs, bits, want, sms, cursor, 1);
    assert ReadsAt(fs, sms, want, bits, runs, 1);
    SecondRun(sms, want, bits, runs, i, j);
    if |fs| > 2 {
      MappedPlace(fs, bits, want, sms, cursor, 2);
    }
    assert fs == [fs[0], fs[1]];
  }

  lemma {:induction false} IsMapped(fs: seq<Fmmu>, bits: nat, want: nat, sms: seq<Sm>, cursor: nat, runs: seq<Run>)
    requires |sms| == EC_MAXSM && fs != [] && Tiles(fs, Begin(cursor, bits), Finish(cursor, bits))
    requires OfType(fs, FmmuType(want)) && Reads(fs, sms, want, bits, runs)
    ensures Mapped(fs, bits, want, sms, cursor)
  {
  }

  lemma {:induction false} RunsNone(sms: seq<Sm>, want: nat, bits: nat)
    requires |sms| == EC_MAXSM
    ensures Reads([], sms, want, bits, []) && Had(sms, want, []) == 0
  {
  }

  lemma {:induction false} CountIs(bitCount: nat, count: nat)
    requires Counts(bitCount, count)
    ensures count == Counted(bitCount)
  {
  }

  /** How far a slave is mapped: `done` bytes of it, and the cursor behind them. */
  predicate Reaches(fs: seq<Fmmu>, bits: nat, want: nat, cursor: nat, done: nat, addr: nat, pos: nat)
  {
    var begin := Begin(cursor, bits);
    && OfType(fs, FmmuType(want)) && pos <= 7
    && (fs == [] ==> done == 0 && 8 * addr + pos == cursor)
    && (fs != [] ==> Tiles(fs, begin, 8 * addr + pos))
    && (fs != [] && bits <= 7 ==> done > 0 && 8 * addr + pos == begin + bits)
    && (fs != [] && bits > 7 ==>
          pos == 0 && addr == fs[0].logStart + done && 8 * fs[0].logStart == begin && done <= BytesOf(bits))
  }

  lemma {:induction false} ReachesNone(bits: nat, want: nat, addr: nat, pos: nat)
    requires pos <= 7
    ensures Reaches([], bits, want, 8 * addr + pos, 0, addr, pos)
  {
  }

  /** One more FMMU. */
  lemma {:induction false} ReachesOn(fs: seq<Fmmu>, bits: nat, want: nat, cursor: nat, done: nat, addr: nat, pos: nat,
          f: Fmmu, addr': nat, pos': nat)
    requires Reaches(fs, bits, want, cursor, done, addr, pos) && 0 < bits && done < Need(bits)
    requires f.kind == FmmuType(want) && First(f) <= End(f) == 8 * addr' + pos' && pos' <= 7
    requires bits <= 7 ==> First(f) == 8 * addr + pos && End(f) == First(f) + bits && f.logLength > 0
    requires bits > 7 ==>
               && pos' == 0 && f.logStart == addr + (if pos > 0 then 1 else 0) && First(f) == 8 * f.logStart
               && addr' == f.logStart + f.logLength && done + f.logLength <= BytesOf(bits)
    ensures Reaches(fs + [f], bits, want, cursor, done + f.logLength, addr', pos')
    ensures bits > 7 ==> done == if fs == [] then 0 else f.logStart - fs[0].logStart
  {
    hide Tiles;
    assert First(f) == if fs == [] then Begin(cursor, bits) else 8 * addr + pos;
    NoTiles(Begin(cursor, bits));
    TilesGrow(fs, Begin(cursor, bits), f);
  }

  lemma {:induction false} NoTiles(bit: int)
    ensures Tiles([], bit, bit)
  {
  }

  /** All of a slave. */
  lemma {:induction false} ReachesEnd(fs: seq<Fmmu>, bits: nat, want: nat, cursor: nat, done: nat, addr: nat, pos: nat)
    requires Reaches(fs, bits, want, cursor, done, addr, pos) && 0 < bits && done >= Need(bits)
    ensures fs != [] && OfType(fs, FmmuType(want)) && pos <= 7
    ensures 8 * addr + pos == Finish(cursor, bits) && Tiles(fs, Begin(cursor, bits), Finish(cursor, bits))
  {
    hide Tiles;
  }

  lemma {:induction false} NeedIs(bits: nat)
    requires bits > 0
    ensures Need(bits) > 0 && (bits > 7 ==> BytesOf(bits) == Need(bits)) && (bits <= 7 ==> Need(bits) == 1)
  {
  }

  /** Maps the outputs, or the inputs, of one slave from the cursor on. */
  method CreateMappings(bits: nat, want: nat, sms: seq<Sm>, logAddr: nat, bitPos: nat)
    returns (fmmus: seq<Fmmu>, newAddr: nat, newPos: nat)
    requires 0 < bits < WORD && bitPos <= 7 && WordSms(sms)
    requires bits > 7 ==> Fed(sms, want, 0)
    ensures Mapped(fmmus, bits, want, sms, 8 * logAddr + bitPos)
    ensures 8 * newAddr + newPos == Finish(8 * logAddr + bitPos, bits) && newPos <= 7
  {
    hide Tiles, OfType, Fed, Begin, Finish, BytesOf, Need, Counts, Counted, Gives, Eligible, WordSms, IsRun, BitsIn,
      Least, Had, Reads, Reaches, First, End, WithinBytes, FmmuType, Mapped;
    fmmus, newAddr, newPos := [], logAddr, bitPos;
    var done, smc, bitCount, count, need := 0, 0, 0, 0, Need(bits);
    ghost var cursor, runs := 8 * logAddr + bitPos, [];
    NeedIs(bits);
    CountsNone();
    RunsNone(sms, want, bits);
    ReachesNone(bits, want, logAddr, bitPos);
    while smc < EC_MAXSM && done < need
      invariant smc < EC_MAXSM && Counts(bitCount, count) && (bitCount >= bits ==> Gives(sms, want, smc))
      invariant bits > 7 && bitCount == 0 ==> Fed(sms, want, smc)
      invariant Reaches(fmmus, bits, want, cursor, done, newAddr, newPos) && newPos <= 7
      invariant Reads(fmmus, sms, want, bits, runs) && |runs| == |fmmus| && bitCount == Had(sms, want, runs)
      invariant smc == (if runs == [] then 0 else runs[|runs| - 1].stop) && (bits <= 7 && fmmus != [] ==> done > 0)
      decreases need - done, EC_MAXSM - smc, if count == 0 && bitCount > 0 then 0 else 1
    {
      ghost var bitCount0, count0 := bitCount, count;
      var physStart;
      ghost var run;
      smc, bitCount, count, physStart, run := TakeSms(sms, want, smc, bits, bitCount, count);
      CountGoesOn(sms, want, smc, bits, bitCount0, count0, bitCount, count);
      var left := if BytesOf(bits) > done then BytesOf(bits) - done else 0;
      var f, addr, pos := MapNext(bits, left, count, physStart, want, newAddr, newPos);
      ReachesOn(fmmus, bits, want, cursor, done, newAddr, newPos, f, addr, pos);
      ReadsGrow(fmmus, sms, want, bits, runs, f, run);
      done, newAddr, newPos := done + f.logLength, addr, pos;
      fmmus, runs := fmmus + [f], runs + [run];
    }
    ReachesEnd(fmmus, bits, want, cursor, done, newAddr, newPos);
    IsMapped(fmmus, bits, want, sms, cursor, runs);
  }
}
