/** Cutting the process image into segments that fit a frame.

    The first segment leaves room for a clock datagram.  Segments are closed as the slaves are
    mapped one after the other: a slave that does not fit the open segment opens a new one, if it
    fits a segment at all.
  */
module Segments {

  /** EC_MAXLRWDATA, the most process data of a frame. */
  const MAXLRWDATA := 1518 - 14 - 2 - 10 - 2 - 4
  const FIRSTDCDATAGRAM := 20
  const MAXIOSEGMENTS := 64

  function Limit(segment: nat): nat
  {
    if segment == 0 then MAXLRWDATA - FIRSTDCDATAGRAM else MAXLRWDATA
  }

  /** Closed segments, the size of the open one, and the most it may get. */
  datatype Cut = Cut(closed: seq<nat>, size: nat, max: nat)

  const START := Cut([], 0, MAXLRWDATA - FIRSTDCDATAGRAM)

  function Sum(s: seq<nat>): nat
  {
    if s == [] then 0 else Sum(s[..|s| - 1]) + s[|s| - 1]
  }

  function Total(c: Cut): nat
  {
    Sum(c.closed) + c.size
  }

  // ----- One step each -----

  function Close(c: Cut, size: nat): Cut
  {
    Cut(c.closed + [size], 0, MAXLRWDATA)
  }

  /** Full segments are cut off as long as more is left than the open one may take. */
  function Chop(c: Cut): Cut
    requires c.max > 0
    decreases c.size
  {
    if c.size > c.max then Chop(Cut(c.closed + [c.max], c.size - c.max, MAXLRWDATA)) else c
  }

  /** The `diff` bytes of one slave. */
  function Block(c: Cut, diff: nat): Cut
    requires c.max > 0
  {
    var d := if c.size + diff > c.max && diff <= c.max then Close(c, c.size) else c;
    Chop(d.(size := d.size + diff))
  }

  /** How many more working counts are expected for the slave: one for every full segment cut off,
      and one for the open one. */
  function Hits(c: Cut, diff: nat): nat
    requires c.max > 0
  {
    var d := if c.size + diff > c.max && diff <= c.max then Close(c, c.size) else c;
    var e := Block(c, diff);
    (if |e.closed| >= |d.closed| then |e.closed| - |d.closed| else 0) + if e.size > 0 && diff > 0 then 1 else 0
  }

  /** The byte that completes a last partly used one; behind the inputs the limit of a new segment
      is not raised. */
  function Fill(c: Cut, inputs: bool): Cut
  {
    var d := if c.size + 1 > c.max then Close(c, c.size).(max := if inputs then c.max else MAXLRWDATA) else c;
    d.(size := d.size + 1)
  }

  /** A segment closed for it is expected to count. */
  function FillHits(c: Cut): nat
  {
    if c.size + 1 > c.max then 1 else 0
  }

  /** The mailbox status byte of one slave, or none. */
  function Status(c: Cut, diff: nat): Cut
  {
    if c.size + diff > MAXLRWDATA - FIRSTDCDATAGRAM then Cut(c.closed + [c.size], diff, c.max)
    else c.(size := c.size + diff)
  }

  // ----- What every step keeps -----

  /** Every segment fits a frame, the first with its clock datagram. */
  predicate Fits(c: Cut)
  {
    && MAXLRWDATA - FIRSTDCDATAGRAM <= c.max <= Limit(|c.closed|) && c.size <= c.max
    && forall i :: 0 <= i < |c.closed| ==> c.closed[i] <= Limit(i)
  }

  /** Later cuts leave closed segments alone and let the open one only grow. */
  predicate Extends(c: Cut, d: Cut)
  {
    && |c.closed| <= |d.closed| && d.closed[..|c.closed|] == c.closed
    && c.size <= if |d.closed| == |c.closed| then d.size else d.closed[|c.closed|]
  }

  lemma {:induction false} SumGrows(s: seq<nat>, x: nat)
    ensures Sum(s + [x]) == Sum(s) + x
  {
    assert (s + [x])[..|s|] == s;
  }

  lemma {:induction false} ExtendsOn(c: Cut, d: Cut, e: Cut)
    requires Extends(c, d) && Extends(d, e)
    ensures Extends(c, e)
  {
    assert e.closed[..|c.closed|] == e.closed[..|d.closed|][..|c.closed|];
    if |d.closed| > |c.closed| {
      assert e.closed[|c.closed|] == e.closed[..|d.closed|][|c.closed|];
    }
  }

  lemma {:induction false} ChopKeeps(c: Cut)
    requires MAXLRWDATA - FIRSTDCDATAGRAM <= c.max <= Limit(|c.closed|)
    requires forall i :: 0 <= i < |c.closed| ==> c.closed[i] <= Limit(i)
    ensures Fits(Chop(c)) && Total(Chop(c)) == Total(c)
    ensures |Chop(c).closed| >= |c.closed| && Chop(c).closed[..|c.closed|] == c.closed
    ensures |Chop(c).closed| > |c.closed| ==> Chop(c).closed[|c.closed|] == c.max
    ensures if c.size > c.max then |Chop(c).closed| > |c.closed| else Chop(c) == c
    decreases c.size
  {
    if c.size > c.max {
      var d := Cut(c.closed + [c.max], c.size - c.max, MAXLRWDATA);
      SumGrows(c.closed, c.max);
      ChopKeeps(d);
      assert Chop(c).closed[..|c.closed|] == Chop(c).closed[..|d.closed|][..|c.closed|];
      assert Chop(c).closed[|c.closed|] == Chop(c).closed[..|d.closed|][|c.closed|];
    }
  }

  /** Segments cut off are not empty, nor is what is left. */
  lemma {:induction false} ChopFull(c: Cut)
    requires c.max > 0 && c.size > 0
    ensures var d := Chop(c);
            && d.size > 0 && |d.closed| >= |c.closed| && d.closed[..|c.closed|] == c.closed
            && (forall i :: |c.closed| <= i < |d.closed| ==> d.closed[i] > 0)
            && (|d.closed| > |c.closed| ==> d.closed[|c.closed|] == c.max)
    decreases c.size
  {
    if c.size > c.max {
      var e := Cut(c.closed + [c.max], c.size - c.max, MAXLRWDATA);
      ChopFull(e);
      assert Chop(c).closed[..|c.closed|] == Chop(c).closed[..|e.closed|][..|c.closed|];
      assert Chop(c).closed[|c.closed|] == Chop(c).closed[..|e.closed|][|c.closed|];
    }
  }

  lemma {:induction false} BlockKeeps(c: Cut, diff: nat)
    requires Fits(c)
    ensures Fits(Block(c, diff)) && Total(Block(c, diff)) == Total(c) + diff && Extends(c, Block(c, diff))
  {
    hide Sum, Chop;
    if c.size + diff > c.max && diff <= c.max {
      var d := Close(c, c.size);
      SumGrows(c.closed, c.size);
      ChopKeeps(d.(size := diff));
      ExtendsOn(c, d, Block(c, diff));
    } else {
      ChopKeeps(c.(size := c.size + diff));
    }
  }

  lemma {:induction false} FillKeeps(c: Cut, inputs: bool)
    requires Fits(c)
    ensures Fits(Fill(c, inputs)) && Total(Fill(c, inputs)) == Total(c) + 1 && Extends(c, Fill(c, inputs))
  {
    SumGrows(c.closed, c.size);
  }

  /** The byte goes into the open segment while that has room; else that one is closed as it is, the
      byte begins the next, and one more working count is expected. */
  lemma {:induction false} FillExactly(c: Cut, inputs: bool)
    ensures c.size < c.max ==> Fill(c, inputs) == Cut(c.closed, c.size + 1, c.max) && FillHits(c) == 0
    ensures c.size >= c.max ==>
              && FillHits(c) == 1
              && Fill(c, inputs) == Cut(c.closed + [c.size], 1, if inputs then c.max else MAXLRWDATA)
  {
  }

  lemma {:induction false} StatusKeeps(c: Cut, diff: nat)
    requires Fits(c) && diff <= 1
    ensures Fits(Status(c, diff)) && Total(Status(c, diff)) == Total(c) + diff && Extends(c, Status(c, diff))
  {
    SumGrows(c.closed, c.size);
  }

  /** The bytes a step adds are in one segment: the open one begins no later than they do. */
  predicate Undivided(c: Cut, d: Cut)
  {
    Sum(d.closed) <= Total(c)
  }

  /** The block of a slave is left in one piece exactly when it is no larger than the open segment
      may get, or the open one is full to the byte and the block fits the next. */
  lemma {:induction false} BlockUndivided(c: Cut, diff: nat)
    requires Fits(c)
    ensures Undivided(c, Block(c, diff)) <==> diff <= c.max || (c.size == c.max && diff <= MAXLRWDATA)
  {
    hide Sum;
    if diff <= c.max {
      SumGrows(c.closed, c.size);
    } else {
      var d := Cut(c.closed + [c.max], c.size + diff - c.max, MAXLRWDATA);
      SumGrows(c.closed, c.max);
      ChopKeeps(d);
      if d.size > MAXLRWDATA {
        var chopped := Chop(d).closed;
        SumSplits(chopped, |d.closed| + 1);
        SumGrows(d.closed, MAXLRWDATA);
        assert chopped[..|d.closed| + 1] == d.closed + [MAXLRWDATA];
      }
    }
  }

  lemma {:induction false} SumSplits(s: seq<nat>, k: nat)
    requires k <= |s|
    ensures Sum(s[..k]) <= Sum(s)
    decreases |s|
  {
    if k < |s| {
      SumSplits(s[..|s| - 1], k);
      assert s[..|s| - 1][..k] == s[..k];
    } else {
      assert s[..k] == s;
    }
  }

  /** All segments, the open one last. */
  function All(c: Cut): seq<nat>
  {
    c.closed + [c.size]
  }

  /** Bytes put down undivided stay in one segment whatever is added later. */
  lemma {:induction false} StaysUndivided(c: Cut, d: Cut, e: Cut)
    requires Undivided(c, d) && Extends(d, e)
    ensures var k := |d.closed|;
            k < |All(e)| && Sum(All(e)[..k]) <= Total(c) && Total(d) <= Sum(All(e)[..k + 1])
  {
    var k := |d.closed|;
    assert All(e)[..k] == d.closed;
    assert All(e)[..k + 1] == All(e)[..k] + [All(e)[k]];
    SumGrows(d.closed, All(e)[k]);
  }

  // ----- The program: the table of segments in place -----

  lemma {:induction false} BlockIsChop(c: Cut, diff: nat)
    requires Fits(c)
    ensures c.max > 0
    ensures var d := if c.size + diff > c.max && diff <= c.max then Close(c, c.size) else c;
            Block(c, diff) == Chop(d.(size := d.size + diff)) && |d.closed| <= |Block(c, diff).closed|
  {
    hide Chop;
    var d := if c.size + diff > c.max && diff <= c.max then Close(c, c.size) else c;
    ChopLength(d.(size := d.size + diff));
  }

  lemma {:induction false} ChopLength(c: Cut)
    requires c.max > 0
    ensures |Chop(c).closed| >= |c.closed|
    decreases c.size
  {
    if c.size > c.max {
      ChopLength(Cut(c.closed + [c.max], c.size - c.max, MAXLRWDATA));
    }
  }

  lemma {:induction false} ChopOnce(c: Cut)
    requires c.max > 0
    ensures if c.size > c.max then
              var d := Cut(c.closed + [c.max], c.size - c.max, MAXLRWDATA);
              Chop(c) == Chop(d) && |Chop(c).closed| > |c.closed|
            else Chop(c) == c
  {
    if c.size > c.max {
      ChopLength(Cut(c.closed + [c.max], c.size - c.max, MAXLRWDATA));
    }
  }

  /** `n` full segments are cut off, of a limit that does not change. */
  lemma {:induction false} ChopMany(c: Cut, n: nat, rest: nat)
    requires c.max == MAXLRWDATA && c.size == n * MAXLRWDATA + rest && 0 < rest <= MAXLRWDATA
    ensures var d := Chop(c); |d.closed| == |c.closed| + n && d.size == rest && d.max == MAXLRWDATA
    decreases n
  {
    hide Chop;
    ChopOnce(c);
    if n > 0 {
      ChopMany(Cut(c.closed + [c.max], c.size - c.max, MAXLRWDATA), n - 1, rest);
    }
  }

  class Segmenter {
    const IOsegment: array<nat>
    var currentsegment: nat
    var segmentsize: nat
    var segmentmaxsize: nat

    /** The table holds the closed segments of `c`, and room for the open one. */
    ghost predicate Holds(c: Cut)
      reads this, IOsegment
    {
      && IOsegment.Length == MAXIOSEGMENTS && currentsegment == |c.closed| < MAXIOSEGMENTS
      && IOsegment[..currentsegment] == c.closed && segmentsize == c.size && segmentmaxsize == c.max
    }

    constructor ()
      ensures Holds(START) && fresh(IOsegment)
    {
      IOsegment := new nat[MAXIOSEGMENTS](i => 0);
      currentsegment, segmentsize, segmentmaxsize := 0, 0, MAXLRWDATA - FIRSTDCDATAGRAM;
    }

    method CloseSegment(size: nat, ghost c: Cut)
      requires Holds(c) && currentsegment < MAXIOSEGMENTS - 1
      modifies this`currentsegment, IOsegment
      ensures Holds(c.(closed := c.closed + [size]))
    {
      IOsegment[currentsegment] := size;
      currentsegment := currentsegment + 1;
    }

    /** Adds the bytes of a slave; there are segments enough. */
    method AddBlock(diff: nat, ghost c: Cut) returns (wkc: nat)
      requires Holds(c) && Fits(c) && |Block(c, diff).closed| < MAXIOSEGMENTS
      modifies this, IOsegment
      ensures Holds(Block(c, diff)) && wkc == Hits(c, diff)
    {
      hide Chop, Fits;
      ghost var d := c;
      wkc := 0;
      BlockIsChop(c, diff);
      if segmentsize + diff > segmentmaxsize && diff <= segmentmaxsize && currentsegment < MAXIOSEGMENTS {
        CloseSegment(segmentsize, c);
        segmentsize := 0;
        segmentmaxsize := MAXLRWDATA;
        d := Close(c, c.size);
      }
      segmentsize := segmentsize + diff;
      d := d.(size := d.size + diff);
      ghost var first := currentsegment;
      while segmentsize > segmentmaxsize && currentsegment < MAXIOSEGMENTS
        invariant Holds(d) && d.max > 0 && Chop(d) == Block(c, diff) && first + wkc == currentsegment
        decreases segmentsize
      {
        ChopOnce(d);
        CloseSegment(segmentmaxsize, d);
        segmentsize := segmentsize - segmentmaxsize;
        wkc := wkc + 1;
        segmentmaxsize := MAXLRWDATA;
        d := Cut(d.closed + [d.max], d.size - d.max, MAXLRWDATA);
      }
      ChopOnce(d);
      if segmentsize > 0 && diff > 0 {
        wkc := wkc + 1;
      }
    }

    /** Adds the byte that completes the outputs, or the inputs. */
    method AddFill(inputs: bool, ghost c: Cut) returns (wkc: nat)
      requires Holds(c) && |Fill(c, inputs).closed| < MAXIOSEGMENTS
      modifies this, IOsegment
      ensures Holds(Fill(c, inputs)) && wkc == FillHits(c)
    {
      wkc := 0;
      if segmentsize + 1 > segmentmaxsize && currentsegment < MAXIOSEGMENTS {
        CloseSegment(segmentsize, c);
        segmentsize := 0;
        wkc := 1;
        if !inputs {
          segmentmaxsize := MAXLRWDATA;
        }
      }
      segmentsize := segmentsize + 1;
    }

    /** Adds the mailbox status byte of a slave, or nothing. */
    method AddStatus(diff: nat, ghost c: Cut)
      requires Holds(c) && |Status(c, diff).closed| < MAXIOSEGMENTS
      modifies this, IOsegment
      ensures Holds(Status(c, diff))
    {
      if segmentsize + diff > MAXLRWDATA - FIRSTDCDATAGRAM {
        IOsegment[currentsegment] := segmentsize;
        if currentsegment < MAXIOSEGMENTS - 1 {
          currentsegment := currentsegment + 1;
          segmentsize := diff;
        }
      } else {
        segmentsize := segmentsize + diff;
      }
    }

    /** Closes the last segment. */
    method Finish(ghost c: Cut) returns (nsegments: nat)
      requires Holds(c)
      modifies IOsegment
      ensures nsegments == |All(c)| && IOsegment[..nsegments] == All(c)
    {
      IOsegment[currentsegment] := segmentsize;
      nsegments := currentsegment + 1;
    }
  }
}
