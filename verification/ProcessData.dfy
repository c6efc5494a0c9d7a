/** The cyclic exchange of the process image: segments go out as logical read-write datagrams, and
    what comes back is put where it was taken from (not overlapped, LRW allowed). */
module ProcessData {
  import opened Bytes
  import opened Segments

  const EC_MAXBUF := 16

  // ----- The bus -----

  /** A range of the image that a slave answers for: 2 counts for outputs, 1 for inputs. */
  datatype Place = Place(from: nat, to: nat, weight: nat)

  /** The range and the bytes `a` up to `b` have a byte in common. */
  predicate Touches(p: Place, a: nat, b: nat)
  {
    p.from < b && a < p.to && p.from < p.to && a < b
  }

  /** What one datagram over `a` up to `b` collects. */
  function Wkc(places: seq<Place>, a: nat, b: nat): nat
  {
    if places == [] then 0
    else Wkc(places[1..], a, b) + if Touches(places[0], a, b) then places[0].weight else 0
  }

  /** Where segment `k` begins. */
  function At(segments: seq<nat>, k: nat): nat
    requires k <= |segments|
  {
    Sum(segments[..k])
  }

  lemma {:induction false} AtNext(segments: seq<nat>, k: nat)
    requires k < |segments|
    ensures At(segments, k + 1) == At(segments, k) + segments[k]
  {
    assert segments[..k + 1][..k] == segments[..k];
  }

  /** Into how many of the first `n` segments a range is cut. */
  function Pieces(p: Place, segments: seq<nat>, n: nat): nat
    requires n <= |segments|
  {
    if n == 0 then 0
    else Pieces(p, segments, n - 1) + if Touches(p, At(segments, n - 1), At(segments, n)) then 1 else 0
  }

  /** The counters of the datagrams of the first `n` segments, added up. */
  function WkcSum(places: seq<Place>, segments: seq<nat>, n: nat): nat
    requires n <= |segments|
  {
    if n == 0 then 0 else WkcSum(places, segments, n - 1) + Wkc(places, At(segments, n - 1), At(segments, n))
  }

  /** Every range counts once for every segment it is in. */
  lemma {:induction false} WkcSumStep(p: Place, rest: seq<Place>, segments: seq<nat>, n: nat)
    requires n <= |segments|
    ensures WkcSum([p] + rest, segments, n) == WkcSum(rest, segments, n) + p.weight * Pieces(p, segments, n)
    decreases n
  {
    hide At, Touches, Wkc;
    if n > 0 {
      WkcSumStep(p, rest, segments, n - 1);
      WkcFirst(p, rest, At(segments, n - 1), At(segments, n));
      assert p.weight * (Pieces(p, segments, n - 1) + 1) == p.weight * Pieces(p, segments, n - 1) + p.weight;
    }
  }

  lemma {:induction false} WkcFirst(p: Place, rest: seq<Place>, a: nat, b: nat)
    ensures Wkc([p] + rest, a, b) == Wkc(rest, a, b) + if Touches(p, a, b) then p.weight else 0
  {
    assert ([p] + rest)[1..] == rest;
  }

  lemma {:induction false} AtGrows(segments: seq<nat>, j: nat, k: nat)
    requires j <= k <= |segments|
    ensures At(segments, j) <= At(segments, k)
    decreases k
  {
    hide At;
    if j < k {
      AtNext(segments, k - 1);
      AtGrows(segments, j, k - 1);
    }
  }

  /** A boundary between the first `n` segments lies inside the range. */
  predicate Divided(p: Place, segments: seq<nat>, n: nat)
    requires n <= |segments|
  {
    exists j: nat :: j <= n && p.from < At(segments, j) < p.to && At(segments, j) < At(segments, n)
  }

  /** A range within one segment is not divided. */
  lemma {:induction false} WithinSegment(p: Place, segments: seq<nat>, k: nat)
    requires k < |segments| && Sum(segments[..k]) <= p.from && p.to <= Sum(segments[..k + 1])
    ensures !Divided(p, segments, |segments|)
  {
    assert At(segments, k) <= p.from && p.to <= At(segments, k + 1);
    hide At;
    forall j: nat | j <= |segments| ensures !(p.from < At(segments, j) < p.to) {
      if j <= k {
        AtGrows(segments, j, k);
      } else {
        AtGrows(segments, k + 1, j);
      }
    }
  }

  lemma {:induction false} NoPieces(p: Place, segments: seq<nat>, n: nat)
    requires n <= |segments| && p.from < p.to
    ensures Pieces(p, segments, n) == 0 <==> At(segments, n) <= p.from
    decreases n
  {
    hide At;
    if n > 0 {
      NoPieces(p, segments, n - 1);
      AtNext(segments, n - 1);
    } else {
      AtNone(segments);
    }
  }

  lemma {:induction false} AtNone(segments: seq<nat>)
    ensures At(segments, 0) == 0
  {
  }

  lemma {:induction false} DividedStep(p: Place, segments: seq<nat>, n: nat)
    requires 0 < n <= |segments| && p.from < p.to && At(segments, n) > p.from
    ensures var last := At(segments, n - 1);
            && (last <= p.from ==> !Divided(p, segments, n))
            && (p.from < last < p.to && last < At(segments, n) ==> Divided(p, segments, n))
            && (p.from < last && (last >= p.to || last == At(segments, n)) ==>
                  (Divided(p, segments, n) <==> Divided(p, segments, n - 1)))
  {
    hide At;
    AtNext(segments, n - 1);
    var last := At(segments, n - 1);
    forall j: nat | j <= n - 1 ensures At(segments, j) <= last {
      AtGrows(segments, j, n - 1);
    }
  }

  /** A range of the image is counted at least once, and just once exactly when no boundary
      between segments divides it. */
  lemma {:induction false} PiecesCount(p: Place, segments: seq<nat>, n: nat)
    requires n <= |segments| && p.from < p.to && At(segments, n) > p.from
    ensures Pieces(p, segments, n) >= 1 && (Pieces(p, segments, n) == 1 <==> !Divided(p, segments, n))
    decreases n
  {
    hide At, Divided;
    AtNone(segments);
    AtNext(segments, n - 1);
    DividedStep(p, segments, n);
    NoPieces(p, segments, n - 1);
    if At(segments, n - 1) > p.from {
      PiecesCount(p, segments, n - 1);
    }
  }

  /** A range that begins in segment `lo` and ends in segment `hi`, none between them empty. */
  lemma {:induction false} PiecesSpan(p: Place, segments: seq<nat>, lo: nat, hi: nat, n: nat)
    requires lo <= hi < |segments| && n <= |segments| && p.from < p.to
    requires At(segments, lo) <= p.from < At(segments, lo + 1) && At(segments, hi) < p.to <= At(segments, hi + 1)
    requires forall i :: lo < i < hi ==> segments[i] > 0
    ensures Pieces(p, segments, n) == if n <= lo then 0 else if n <= hi + 1 then n - lo else hi - lo + 1
    decreases n
  {
    hide At;
    if n > 0 {
      PiecesSpan(p, segments, lo, hi, n - 1);
      AtNext(segments, n - 1);
      if n <= lo {
        AtGrows(segments, n, lo);
      } else if n > hi + 1 {
        AtGrows(segments, hi + 1, n - 1);
      } else {
        AtGrows(segments, if n - 1 > lo then lo + 1 else lo, n - 1);
        AtGrows(segments, n - 1, hi);
        AtGrows(segments, lo + 1, n);
      }
    }
  }

  /** The segments `s` are the beginning of those of the cut and all that extend it. */
  lemma {:induction false} AtExtends(e: Cut, f: Cut, k: nat)
    requires Extends(e, f) && k <= |e.closed|
    ensures |e.closed| < |All(f)| && At(All(f), k) == Sum(e.closed[..k])
    ensures k < |e.closed| ==> All(f)[k] == e.closed[k]
    ensures Total(e) <= At(All(f), |e.closed| + 1)
  {
    var h := |e.closed|;
    assert All(f)[..k] == f.closed[..h][..k] == e.closed[..k];
    assert All(f)[..h] == e.closed;
    AtNext(All(f), h);
  }

  /** The open segment was full to the byte, and the block does not fit one: then it is expected to
      count in the full segment too, of which it has nothing. */
  predicate Overcounted(c: Cut, diff: nat)
  {
    c.size == c.max && diff > c.max
  }

  /** It happens: the first slave fills the first segment, and a second one is any larger. */
  lemma {:induction false} FullThenLarger(diff: nat)
    requires diff > MAXLRWDATA - FIRSTDCDATAGRAM
    ensures Overcounted(Block(START, MAXLRWDATA - FIRSTDCDATAGRAM), diff)
  {
    ChopOnce(START.(size := MAXLRWDATA - FIRSTDCDATAGRAM));
  }

  /** The count expected for a slave is the number of segments of the image that it is in, but for
      one too many when the segment before it was full and it is larger than a segment. */
  lemma {:induction false} HitsArePieces(c: Cut, diff: nat, f: Cut, weight: nat)
    requires Fits(c) && diff > 0 && Extends(Block(c, diff), f)
    ensures Pieces(Place(Total(c), Total(c) + diff, weight), All(f), |All(f)|)
            == Hits(c, diff) - if Overcounted(c, diff) then 1 else 0
  {
    hide Chop, Fits, Sum, Total, At, Pieces;
    var d := if c.size + diff > c.max && diff <= c.max then Close(c, c.size) else c;
    BlockIsChop(c, diff);
    var e, segments := Block(c, diff), All(f);
    var lo, hi := |d.closed|, |e.closed|;
    ChopOnce(d.(size := d.size + diff));
    BlockKeeps(c, diff);
    ChopFull(d.(size := d.size + diff));
    SumGrows(c.closed, c.size);
    AtExtends(e, f, lo);
    AtExtends(e, f, hi);
    assert e.closed[..lo] == d.closed && e.closed[..hi] == e.closed;
    TotalIs(c);
    TotalIs(e);
    AtNext(segments, lo);
    forall i | lo <= i < hi ensures segments[i] == e.closed[i] {
      AtExtends(e, f, i);
    }
    var p := Place(Total(c), Total(c) + diff, weight);
    if Overcounted(c, diff) {
      AtNext(segments, lo + 1);
      PiecesSpan(p, segments, lo + 1, hi, |segments|);
    } else {
      PiecesSpan(p, segments, lo, hi, |segments|);
    }
  }

  lemma {:induction false} TotalIs(c: Cut)
    ensures Total(c) == Sum(c.closed) + c.size
  {
  }

  /** Ranges of an image of `size` bytes. */
  predicate Placed(places: seq<Place>, size: nat)
  {
    forall i :: 0 <= i < |places| ==> places[i].from < places[i].to <= size
  }

  /** The counters of all segments together are at least that of one datagram over the whole image,
      and are equal to it exactly when no range that counts is divided. */
  lemma {:induction false} CountersAgree(places: seq<Place>, segments: seq<nat>)
    requires Placed(places, At(segments, |segments|))
    ensures WkcSum(places, segments, |segments|) >= Wkc(places, 0, At(segments, |segments|))
    ensures WkcSum(places, segments, |segments|) == Wkc(places, 0, At(segments, |segments|)) <==>
            forall i :: 0 <= i < |places| && places[i].weight > 0 ==> !Divided(places[i], segments, |segments|)
    decreases places
  {
    hide At, Divided;
    var n := |segments|;
    if places == [] {
      NothingCounted(segments, n);
    } else {
      var p, rest := places[0], places[1..];
      assert [p] + rest == places;
      CountersAgree(rest, segments);
      WkcSumStep(p, rest, segments, n);
      PiecesCount(p, segments, n);
      Weighed(p.weight, Pieces(p, segments, n));
      assert forall i :: 0 <= i < |rest| ==> rest[i] == places[i + 1];
      assert forall i :: 0 < i < |places| ==> places[i] == rest[i - 1];
    }
  }

  lemma {:induction false} Weighed(weight: nat, pieces: nat)
    requires pieces >= 1
    ensures weight * pieces >= weight && (weight * pieces == weight <==> weight == 0 || pieces == 1)
  {
    if pieces > 1 {
      assert weight * pieces == weight + weight * (pieces - 1);
    }
  }

  lemma {:induction false} NothingCounted(segments: seq<nat>, n: nat)
    requires n <= |segments|
    ensures WkcSum([], segments, n) == 0
    decreases n
  {
    if n > 0 {
      NothingCounted(segments, n - 1);
    }
  }

  /** Counters of two lists of ranges add up. */
  lemma {:induction false} WkcSumJoin(a: seq<Place>, b: seq<Place>, segments: seq<nat>, n: nat)
    requires n <= |segments|
    ensures WkcSum(a + b, segments, n) == WkcSum(a, segments, n) + WkcSum(b, segments, n)
    decreases a
  {
    if a == [] {
      assert a + b == b;
      NothingCounted(segments, n);
    } else {
      assert a == [a[0]] + a[1..] && a + b == [a[0]] + (a[1..] + b);
      WkcSumJoin(a[1..], b, segments, n);
      WkcSumStep(a[0], a[1..], segments, n);
      WkcSumStep(a[0], a[1..] + b, segments, n);
    }
  }

  // ----- A slave that is read in two places -----

  /** One of the first `n` segments holds the byte at `at` and some of the range. */
  predicate Shares(p: Place, at: nat, segments: seq<nat>, n: nat)
    requires n <= |segments|
  {
    exists k: nat ::
      k < n && At(segments, k) <= at < At(segments, k + 1) && Touches(p, At(segments, k), At(segments, k + 1))
  }

  /** In how many segments a slave is read that has inputs in the range and a status byte at `at`: a
      datagram counts it once, whatever it reads of it. */
  function ReadHits(p: Place, at: nat, segments: seq<nat>, n: nat): nat
    requires n <= |segments|
  {
    if n == 0 then 0
    else
      var a, b := At(segments, n - 1), At(segments, n);
      ReadHits(p, at, segments, n - 1) + if Touches(p, a, b) || a <= at < b then 1 else 0
  }

  /** The status byte counts besides the inputs exactly when its segment holds none of them. */
  lemma {:induction false} StatusCounts(p: Place, at: nat, segments: seq<nat>, n: nat)
    requires n <= |segments|
    ensures ReadHits(p, at, segments, n)
            == Pieces(p, segments, n) + if at < At(segments, n) && !Shares(p, at, segments, n) then 1 else 0
    decreases n
  {
    hide At, Touches;
    AtNone(segments);
    if n > 0 {
      StatusCounts(p, at, segments, n - 1);
      AtNext(segments, n - 1);
      forall j: nat | j < n ensures At(segments, j) <= At(segments, n - 1) {
        AtGrows(segments, j, n - 1);
      }
      if At(segments, n - 1) <= at < At(segments, n) && Touches(p, At(segments, n - 1), At(segments, n)) {
        assert Shares(p, at, segments, n);
      }
    }
  }

  /** The segment of a byte of the image. */
  lemma {:induction false} SegmentOf(at: nat, segments: seq<nat>, n: nat) returns (k: nat)
    requires n <= |segments| && at < At(segments, n)
    ensures k < n && At(segments, k) <= at < At(segments, k + 1)
    decreases n
  {
    hide At;
    AtNone(segments);
    if at < At(segments, n - 1) {
      k := SegmentOf(at, segments, n - 1);
    } else {
      k := n - 1;
    }
  }

  /** For a status byte behind the inputs: exactly when a boundary lies between the last of them and
      the status byte. */
  lemma {:induction false} SharesExactly(p: Place, at: nat, segments: seq<nat>, n: nat)
    requires n <= |segments| && p.from < p.to <= at < At(segments, n)
    ensures Shares(p, at, segments, n) <==> !Divided(Place(p.to - 1, at + 1, p.weight), segments, n)
  {
    hide At;
    var k := SegmentOf(at, segments, n);
    forall j: nat | j <= n
      ensures if j <= k then At(segments, j) <= At(segments, k) else At(segments, k + 1) <= At(segments, j)
    {
      if j <= k {
        AtGrows(segments, j, k);
      } else {
        AtGrows(segments, k + 1, j);
      }
    }
    if Touches(p, At(segments, k), At(segments, k + 1)) {
      assert Shares(p, at, segments, n);
    }
  }

  // ----- The master -----

  /** A logical read-write datagram under a frame index; the first may share its frame with a
      clock datagram. */
  datatype Lrw = Lrw(idx: nat, logAdr: nat, data: seq<byte>, clock: bool)

  /** What was sent, and where its answer goes. */
  datatype Entry = Entry(idx: nat, data: nat, length: nat, clock: bool)

  /** A frame that came back: data and counter of the process data, counter of its last datagram. */
  datatype Answer = Answer(data: seq<byte>, wkc: nat, last: nat)

  const NOFRAME := -1

  function EntryOf(segments: seq<nat>, indices: seq<nat>, hasdc: bool, k: nat): Entry
    requires k < |segments| <= |indices|
  {
    Entry(indices[k], At(segments, k), segments[k], hasdc && k == 0)
  }

  function LrwOf(segments: seq<nat>, indices: seq<nat>, hasdc: bool, start: nat, image: seq<byte>, k: nat): Lrw
    requires k < |segments| <= |indices| && At(segments, k) + segments[k] <= |image|
  {
    Lrw(indices[k], start + At(segments, k), image[At(segments, k)..At(segments, k) + segments[k]], hasdc && k == 0)
  }

  lemma {:induction false} EntryIs(segments: seq<nat>, indices: seq<nat>, hasdc: bool, k: nat)
    requires k < |segments| <= |indices|
    ensures EntryOf(segments, indices, hasdc, k) == Entry(indices[k], At(segments, k), segments[k], hasdc && k == 0)
  {
  }

  lemma {:induction false} LrwIs(segments: seq<nat>, indices: seq<nat>, hasdc: bool, start: nat, image: seq<byte>,
          k: nat)
    requires k < |segments| <= |indices| && At(segments, k) + segments[k] <= |image|
    ensures LrwOf(segments, indices, hasdc, start, image, k)
            == Lrw(indices[k], start + At(segments, k), image[At(segments, k)..At(segments, k) + segments[k]],
                   hasdc && k == 0)
  {
  }

  predicate Answered(e: Entry, answers: map<nat, Answer>)
  {
    e.idx in answers
  }

  /** Answers are as long as what they answer, and entries lie in the image. */
  predicate Fitting(es: seq<Entry>, answers: map<nat, Answer>, size: nat)
  {
    forall i :: 0 <= i < |es| ==>
      es[i].data + es[i].length <= size && (Answered(es[i], answers) ==> |answers[es[i].idx].data| == es[i].length)
  }

  /** The image when the answers to all entries that have one are in. */
  function Collected(image: seq<byte>, es: seq<Entry>, answers: map<nat, Answer>): (r: seq<byte>)
    requires Fitting(es, answers, |image|)
    ensures |r| == |image|
    decreases es
  {
    if es == [] then image
    else
      var e := es[|es| - 1];
      var before := Collected(image, es[..|es| - 1], answers);
      if Answered(e, answers) then Overwrite(before, e.data, answers[e.idx].data) else before
  }

  /** The counter then; the frame with the clock starts it anew. */
  function Counted(es: seq<Entry>, answers: map<nat, Answer>): nat
    decreases es
  {
    if es == [] then 0
    else
      var e := es[|es| - 1];
      var before := Counted(es[..|es| - 1], answers);
      if !Answered(e, answers) then before
      else if e.clock then answers[e.idx].wkc
      else before + answers[e.idx].last
  }

  predicate AnyAnswered(es: seq<Entry>, answers: map<nat, Answer>)
  {
    exists i :: 0 <= i < |es| && Answered(es[i], answers)
  }

  lemma {:induction false} NoEntries(image: seq<byte>, es: seq<Entry>, answers: map<nat, Answer>)
    ensures es[..0] == [] && Fitting(es[..0], answers, |image|) && Collected(image, es[..0], answers) == image
    ensures Counted(es[..0], answers) == 0 && !AnyAnswered(es[..0], answers)
  {
  }

  /** One more entry. */
  lemma {:induction false} NextEntry(image: seq<byte>, es: seq<Entry>, answers: map<nat, Answer>, done: nat)
    requires done < |es| && Fitting(es, answers, |image|) && Fitting(es[..done], answers, |image|)
    ensures var e, a, b := es[done], es[..done], es[..done + 1];
            && Fitting(b, answers, |image|)
            && (if e.idx in answers then
                  && e.data + |answers[e.idx].data| <= |image|
                  && Collected(image, b, answers)
                     == Overwrite(Collected(image, a, answers), e.data, answers[e.idx].data)
                  && Counted(b, answers)
                     == (if e.clock then answers[e.idx].wkc else Counted(a, answers) + answers[e.idx].last)
                  && AnyAnswered(b, answers)
                else
                  && Collected(image, b, answers) == Collected(image, a, answers)
                  && Counted(b, answers) == Counted(a, answers)
                  && AnyAnswered(b, answers) == AnyAnswered(a, answers))
  {
    hide Overwrite;
    var a, b := es[..done], es[..done + 1];
    assert b[..done] == a && b[done] == es[done];
    assert Answered(b[done], answers) == (es[done].idx in answers);
    assert forall i :: 0 <= i < done ==> a[i] == b[i];
  }

  /** How many segments a cycle sends: all up to the last that is not empty. */
  function Used(segments: seq<nat>): (n: nat)
    ensures n <= |segments|
  {
    if segments == [] then 0
    else if segments[|segments| - 1] > 0 then |segments|
    else Used(segments[..|segments| - 1])
  }

  lemma {:induction false} AtRest(segments: seq<nat>)
    requires segments != []
    ensures var rest := segments[..|segments| - 1];
            forall k :: 0 <= k <= |rest| ==> At(rest, k) == At(segments, k)
  {
    var rest := segments[..|segments| - 1];
    forall k | 0 <= k <= |rest| ensures At(rest, k) == At(segments, k) {
      assert rest[..k] == segments[..k];
    }
  }

  lemma {:induction false} UsedIs(segments: seq<nat>, n: nat)
    requires n <= |segments| && At(segments, n) == At(segments, |segments|)
    requires forall k :: 0 <= k < n ==> At(segments, k) < At(segments, n)
    ensures Used(segments) == n
    decreases segments
  {
    if segments != [] {
      var rest := segments[..|segments| - 1];
      AtGrows(segments, n, |segments|);
      if n < |segments| {
        AtGrows(segments, n, |segments| - 1);
        AtNext(segments, |segments| - 1);
        AtRest(segments);
        UsedIs(rest, n);
      } else {
        AtNext(segments, n - 1);
      }
    }
  }

  /** Nothing is behind the last segment that is sent. */
  lemma {:induction false} UsedAll(segments: seq<nat>)
    ensures At(segments, Used(segments)) == At(segments, |segments|)
    ensures forall k :: 0 <= k < Used(segments) ==> At(segments, k) < At(segments, |segments|)
    decreases segments
  {
    var n := |segments|;
    if n > 0 {
      AtNext(segments, n - 1);
      if segments[n - 1] > 0 {
        forall k | 0 <= k < n ensures At(segments, k) < At(segments, n) {
          AtGrows(segments, k, n - 1);
        }
      } else {
        var rest := segments[..n - 1];
        UsedAll(rest);
        AtRest(segments);
      }
    }
  }

  class Context {
    const iomap: array<byte>
    const stack: array<Entry>
    var pushed: nat
    var pulled: nat

    ghost predicate Valid()
      reads this
    {
      stack.Length == EC_MAXBUF && pulled <= pushed <= EC_MAXBUF
    }

    constructor (size: nat)
      ensures Valid() && pushed == 0 && pulled == 0 && iomap.Length == size && fresh(iomap) && fresh(stack)
    {
      iomap := new byte[size](i => 0);
      stack := new Entry[EC_MAXBUF](i => Entry(0, 0, 0, false));
      pushed, pulled := 0, 0;
    }

    /** Forgets the datagram when the stack is full. */
    method PushIndex(idx: nat, data: nat, length: nat, clock: bool)
      requires Valid()
      modifies this`pushed, stack
      ensures Valid()
      ensures pushed == if old(pushed) < EC_MAXBUF then old(pushed) + 1 else EC_MAXBUF
      ensures forall k :: 0 <= k < EC_MAXBUF ==>
                stack[k] == if k == old(pushed) then Entry(idx, data, length, clock) else old(stack[k])
    {
      if pushed < EC_MAXBUF {
        stack[pushed] := Entry(idx, data, length, clock);
        pushed := pushed + 1;
      }
    }

    method PullIndex() returns (pos: int)
      requires Valid()
      modifies this`pulled
      ensures Valid() && if old(pulled) < pushed then pos == old(pulled) && pulled == pos + 1
              else pos == -1 && pulled == old(pulled)
    {
      pos := -1;
      if pulled < pushed {
        pos := pulled;
        pulled := pulled + 1;
      }
    }

    /** Sends the image segment by segment, up to its end. */
    method Send(segments: seq<nat>, indices: seq<nat>, length: nat, start: nat, hasdc: bool)
      returns (sent: seq<Lrw>, wkc: int)
      requires Valid() && pushed == 0 && segments != [] && |segments| <= |indices|
      requires At(segments, |segments|) == length <= iomap.Length
      modifies this`pushed, stack
      ensures Valid() && pulled == old(pulled)
      ensures |sent| == Used(segments) && At(segments, |sent|) == length && wkc == if length > 0 then 1 else 0
      ensures forall k :: 0 <= k < |sent| ==>
                && At(segments, k) + segments[k] <= length
                && sent[k] == LrwOf(segments, indices, hasdc, start, iomap[..length], k)
      ensures pushed == (if |sent| < EC_MAXBUF then |sent| else EC_MAXBUF)
      ensures forall k :: 0 <= k < pushed ==> stack[k] == EntryOf(segments, indices, hasdc, k)
    {
      hide At, LrwOf, EntryOf, Used;
      sent, wkc := [], 0;
      AtNone(segments);
      if length > 0 {
        wkc := 1;
        var currentsegment, first, left, logAdr, data := 0, hasdc, length, start, 0;
        var more := true;
        while more
          invariant Valid() && pulled == old(pulled) && currentsegment <= |segments| && |sent| == currentsegment
          invariant data == At(segments, currentsegment) && left == length - data && left >= 0 && logAdr == start + data
          invariant first == (hasdc && currentsegment == 0)
          invariant more ==> currentsegment < |segments| && left > 0
          invariant !more ==> At(segments, currentsegment) == length
          invariant forall k :: 0 <= k < currentsegment ==> At(segments, k) < length
          invariant forall k :: 0 <= k < |sent| ==>
                      && At(segments, k) + segments[k] <= length
                      && sent[k] == LrwOf(segments, indices, hasdc, start, iomap[..length], k)
          invariant pushed == if |sent| < EC_MAXBUF then |sent| else EC_MAXBUF
          invariant forall k :: 0 <= k < pushed ==> stack[k] == EntryOf(segments, indices, hasdc, k)
          decreases more, |segments| - currentsegment
        {
          AtNext(segments, currentsegment);
          AtGrows(segments, currentsegment + 1, |segments|);
          var sublength, idx := segments[currentsegment], indices[currentsegment];
          EntryIs(segments, indices, hasdc, currentsegment);
          LrwIs(segments, indices, hasdc, start, iomap[..length], currentsegment);
          assert iomap[..length][data..data + sublength] == iomap[data..data + sublength];
          currentsegment := currentsegment + 1;
          sent := sent + [Lrw(idx, logAdr, iomap[data..data + sublength], first)];
          PushIndex(idx, data, sublength, first);
          first := false;
          left, logAdr, data := left - sublength, logAdr + sublength, data + sublength;
          more := left != 0 && currentsegment < |segments|;
        }
      }
      UsedIs(segments, |sent|);
    }

    /** Puts every answer where its datagram came from, and adds up the counters. */
    method Receive(answers: map<nat, Answer>) returns (wkc: int)
      requires Valid() && pulled == 0 && Fitting(stack[..pushed], answers, iomap.Length)
      modifies this`pushed, this`pulled, iomap
      ensures Valid() && pushed == 0 && pulled == 0
      ensures iomap[..] == Collected(old(iomap[..]), old(stack[..pushed]), answers)
      ensures wkc == if AnyAnswered(old(stack[..pushed]), answers) then Counted(old(stack[..pushed]), answers)
              else NOFRAME
    {
      hide Collected, Counted, AnyAnswered, Fitting, Overwrite, Answered;
      ghost var es, image, done := stack[..pushed], iomap[..], 0;
      NoEntries(image, es, answers);
      wkc := 0;
      var valid := false;
      var pos := PullIndex();
      while pos >= 0
        invariant Valid() && pushed == |es| && stack[..pushed] == es && done <= pulled
        invariant if pos >= 0 then pos == done && pulled == done + 1 else done == pulled == pushed
        invariant Fitting(es[..done], answers, |image|)
        invariant iomap[..] == Collected(image, es[..done], answers)
        invariant wkc == Counted(es[..done], answers)
        invariant valid == AnyAnswered(es[..done], answers)
        decreases pushed - done
      {
        var e := stack[pos];
        NextEntry(image, es, answers, done);
        if e.idx in answers {
          var a := answers[e.idx];
          CopyTo(iomap, e.data, a.data);
          if e.clock {
            wkc := a.wkc;
          } else {
            wkc := wkc + a.last;
          }
          valid := true;
        }
        done := done + 1;
        pos := PullIndex();
      }
      assert es[..|es|] == es;
      pushed, pulled := 0, 0;
      if !valid {
        wkc := NOFRAME;
      }
    }
  }

  // ----- One cycle -----

  /** What the slaves make of the bytes of the image from `at` on: each byte by its address. */
  function Applied(net: (nat, byte) -> byte, at: nat, data: seq<byte>): (r: seq<byte>)
    ensures |r| == |data|
  {
    seq(|data|, i requires 0 <= i < |data| => net(at + i, data[i]))
  }

  /** The answer to the datagram for segment `k` is that of the bus. */
  predicate BusAnswer(answers: map<nat, Answer>, net: (nat, byte) -> byte, places: seq<Place>, segments: seq<nat>,
          indices: seq<nat>, hasdc: bool, image: seq<byte>, k: nat)
    requires k < |segments| <= |indices|
  {
    && indices[k] in answers && At(segments, k) + segments[k] <= |image|
    && var a := answers[indices[k]];
    && a.data == Applied(net, At(segments, k), image[At(segments, k)..At(segments, k) + segments[k]])
    && a.wkc == Wkc(places, At(segments, k), At(segments, k + 1))
    && ((hasdc && k == 0) || a.last == a.wkc)
  }

  predicate FromBus(answers: map<nat, Answer>, net: (nat, byte) -> byte, places: seq<Place>, segments: seq<nat>,
          indices: seq<nat>, hasdc: bool, image: seq<byte>, n: nat)
    requires n <= |segments| <= |indices|
  {
    forall k :: 0 <= k < n ==> BusAnswer(answers, net, places, segments, indices, hasdc, image, k)
  }

  function Entries(segments: seq<nat>, indices: seq<nat>, hasdc: bool, n: nat): (es: seq<Entry>)
    requires n <= |segments| <= |indices|
    ensures |es| == n
  {
    seq(n, k requires 0 <= k < n => EntryOf(segments, indices, hasdc, k))
  }

  lemma {:induction false} AppliedJoin(net: (nat, byte) -> byte, image: seq<byte>, a: nat, b: nat)
    requires a <= b <= |image|
    ensures Overwrite(Applied(net, 0, image[..a]) + image[a..], a, Applied(net, a, image[a..b]))
            == Applied(net, 0, image[..b]) + image[b..]
  {
  }

  /** Segment by segment the image becomes what the slaves make of it, and the counter the sum. */
  lemma {:induction false} TilesCollect(answers: map<nat, Answer>, net: (nat, byte) -> byte, places: seq<Place>,
          segments: seq<nat>, indices: seq<nat>, hasdc: bool, image: seq<byte>, n: nat)
    requires n <= |segments| <= |indices| && At(segments, n) <= |image|
    requires FromBus(answers, net, places, segments, indices, hasdc, image, n)
    ensures Fitting(Entries(segments, indices, hasdc, n), answers, |image|)
    ensures Collected(image, Entries(segments, indices, hasdc, n), answers)
            == Applied(net, 0, image[..At(segments, n)]) + image[At(segments, n)..]
    ensures Counted(Entries(segments, indices, hasdc, n), answers) == WkcSum(places, segments, n)
    ensures n > 0 ==> AnyAnswered(Entries(segments, indices, hasdc, n), answers)
    decreases n
  {
    hide At, Applied, Overwrite, Wkc, FromBus, Entries, EntryOf;
    EntriesLast(segments, indices, hasdc, n);
    if n == 0 {
      AtNone(segments);
      AppliedNone(net, image);
    } else {
      AtNext(segments, n - 1);
      FromBusLast(answers, net, places, segments, indices, hasdc, image, n);
      TilesCollect(answers, net, places, segments, indices, hasdc, image, n - 1);
      AppliedJoin(net, image, At(segments, n - 1), At(segments, n));
      var es := Entries(segments, indices, hasdc, n);
      FittingGrows(es, answers, |image|);
      assert Answered(es[n - 1], answers);
    }
  }

  lemma {:induction false} EntriesLast(segments: seq<nat>, indices: seq<nat>, hasdc: bool, n: nat)
    requires n <= |segments| <= |indices|
    ensures n == 0 ==> Entries(segments, indices, hasdc, n) == []
    ensures n > 0 ==>
              var es := Entries(segments, indices, hasdc, n);
              && es[..n - 1] == Entries(segments, indices, hasdc, n - 1)
              && es[n - 1] == Entry(indices[n - 1], At(segments, n - 1), segments[n - 1], hasdc && n == 1)
  {
    hide At;
  }

  lemma {:induction false} FromBusLast(answers: map<nat, Answer>, net: (nat, byte) -> byte, places: seq<Place>,
          segments: seq<nat>, indices: seq<nat>, hasdc: bool, image: seq<byte>, n: nat)
    requires 0 < n <= |segments| <= |indices|
    requires FromBus(answers, net, places, segments, indices, hasdc, image, n)
    ensures At(segments, n - 1) + segments[n - 1] == At(segments, n) <= |image|
    ensures FromBus(answers, net, places, segments, indices, hasdc, image, n - 1)
    ensures indices[n - 1] in answers
    ensures var a := answers[indices[n - 1]];
            && a.data == Applied(net, At(segments, n - 1), image[At(segments, n - 1)..At(segments, n)])
            && a.wkc == Wkc(places, At(segments, n - 1), At(segments, n)) && ((hasdc && n == 1) || a.last == a.wkc)
  {
    hide At, Applied, Wkc;
    AtNext(segments, n - 1);
    assert BusAnswer(answers, net, places, segments, indices, hasdc, image, n - 1);
  }

  lemma {:induction false} FittingGrows(es: seq<Entry>, answers: map<nat, Answer>, size: nat)
    requires es != [] && Fitting(es[..|es| - 1], answers, size)
    requires var e := es[|es| - 1];
             e.data + e.length <= size && (Answered(e, answers) ==> |answers[e.idx].data| == e.length)
    ensures Fitting(es, answers, size)
  {
    assert forall i :: 0 <= i < |es| - 1 ==> es[i] == es[..|es| - 1][i];
  }

  lemma {:induction false} AppliedNone(net: (nat, byte) -> byte, image: seq<byte>)
    ensures Applied(net, 0, image[..0]) + image[0..] == image
  {
  }

  lemma {:induction false} EmptyTail(places: seq<Place>, segments: seq<nat>, m: nat, n: nat)
    requires m <= n <= |segments| && At(segments, m) == At(segments, n)
    ensures WkcSum(places, segments, m) == WkcSum(places, segments, n)
    decreases n
  {
    hide At;
    if m < n {
      AtGrows(segments, m, n - 1);
      AtGrows(segments, n - 1, n);
      NothingTouched(places, At(segments, n));
      EmptyTail(places, segments, m, n - 1);
    }
  }

  lemma {:induction false} NothingTouched(places: seq<Place>, a: nat)
    ensures Wkc(places, a, a) == 0
    decreases places
  {
    if places != [] {
      NothingTouched(places[1..], a);
    }
  }

  /** The frame that comes back for a datagram. */
  function AnswerTo(l: Lrw, start: nat, net: (nat, byte) -> byte, places: seq<Place>, clockWkc: nat): Answer
    requires l.logAdr >= start
  {
    var at := l.logAdr - start;
    var wkc := Wkc(places, at, at + |l.data|);
    Answer(Applied(net, at, l.data), wkc, if l.clock then clockWkc else wkc)
  }

  /** No other datagram has the index of datagram `k`. */
  predicate Alone(sent: seq<Lrw>, k: nat)
    requires k < |sent|
  {
    forall j :: 0 <= j < |sent| && j != k ==> sent[j].idx != sent[k].idx
  }

  /** What is read for a datagram of `n` bytes whose index was used again: a buffer of that length. */
  function Resized(a: Answer, n: nat): (b: Answer)
    ensures |b.data| == n
  {
    a.(data := if |a.data| >= n then a.data[..n] else a.data + Zeros(n - |a.data|))
  }

  /** None of the datagrams from `i` on before datagram `k` has the index of that. */
  predicate FirstWith(sent: seq<Lrw>, i: nat, k: nat)
    requires k < |sent|
  {
    forall j :: i <= j < k ==> sent[j].idx != sent[k].idx
  }

  /** What is read for datagram `k`.  A frame is read with the length of the one sent last under its
      index, so for an index used twice nothing is known but how much is read: `garbled`. */
  function ReadFor(sent: seq<Lrw>, k: nat, start: nat, net: (nat, byte) -> byte, places: seq<Place>, clockWkc: nat,
          garbled: nat -> Answer): (a: Answer)
    requires k < |sent| && sent[k].logAdr >= start
    ensures |a.data| == |sent[k].data|
  {
    if Alone(sent, k) then AnswerTo(sent[k], start, net, places, clockWkc)
    else Resized(garbled(sent[k].idx), |sent[k].data|)
  }

  /** The bus answers every datagram, and the first one under an index is the one looked for. */
  method Transfer(sent: seq<Lrw>, start: nat, net: (nat, byte) -> byte, places: seq<Place>, clockWkc: nat,
          garbled: nat -> Answer)
    returns (answers: map<nat, Answer>)
    requires forall k :: 0 <= k < |sent| ==> sent[k].logAdr >= start
    ensures forall k :: 0 <= k < |sent| && FirstWith(sent, 0, k) ==>
              && sent[k].idx in answers
              && answers[sent[k].idx] == ReadFor(sent, k, start, net, places, clockWkc, garbled)
  {
    hide ReadFor;
    answers := map[];
    var i := |sent|;
    while i > 0
      invariant 0 <= i <= |sent|
      invariant forall k :: i <= k < |sent| && FirstWith(sent, i, k) ==>
                  && sent[k].idx in answers
                  && answers[sent[k].idx] == ReadFor(sent, k, start, net, places, clockWkc, garbled)
    {
      i := i - 1;
      answers := answers[sent[i].idx := ReadFor(sent, i, start, net, places, clockWkc, garbled)];
    }
  }

  lemma {:induction false} AnsweredByBus(answers: map<nat, Answer>, net: (nat, byte) -> byte, places: seq<Place>,
          segments: seq<nat>, indices: seq<nat>, hasdc: bool, start: nat, clockWkc: nat, image: seq<byte>, length: nat,
          n: nat)
    requires n <= |segments| <= |indices| && At(segments, n) <= length <= |image|
    requires forall k :: 0 <= k < n ==>
               && At(segments, k) + segments[k] <= length && indices[k] in answers
               && answers[indices[k]]
                  == AnswerTo(LrwOf(segments, indices, hasdc, start, image[..length], k), start, net, places, clockWkc)
    ensures FromBus(answers, net, places, segments, indices, hasdc, image, n)
  {
    hide Applied, At, Wkc, BusAnswer, AnswerTo, LrwOf;
    forall k | 0 <= k < n ensures BusAnswer(answers, net, places, segments, indices, hasdc, image, k) {
      AnswerIsBus(answers, net, places, segments, indices, hasdc, start, clockWkc, image, length, k);
    }
  }

  lemma {:induction false} AnswerIsBus(answers: map<nat, Answer>, net: (nat, byte) -> byte, places: seq<Place>,
          segments: seq<nat>, indices: seq<nat>, hasdc: bool, start: nat, clockWkc: nat, image: seq<byte>, length: nat,
          k: nat)
    requires k < |segments| <= |indices| && At(segments, k) + segments[k] <= length <= |image| && indices[k] in answers
    requires answers[indices[k]]
             == AnswerTo(LrwOf(segments, indices, hasdc, start, image[..length], k), start, net, places, clockWkc)
    ensures BusAnswer(answers, net, places, segments, indices, hasdc, image, k)
  {
    hide Applied, At, Wkc;
    AtNext(segments, k);
    assert image[..length][At(segments, k)..At(segments, k) + segments[k]]
      == image[At(segments, k)..At(segments, k) + segments[k]];
  }

  /** Another of the first `n` datagrams has the index of datagram `k`. */
  predicate Reused(indices: seq<nat>, k: nat, n: nat)
    requires k < n <= |indices|
  {
    exists j :: 0 <= j < n && j != k && indices[j] == indices[k]
  }

  /** The bytes of segment `k` are what the slaves make of them. */
  predicate PieceDone(net: (nat, byte) -> byte, segments: seq<nat>, image: seq<byte>, result: seq<byte>, k: nat)
    requires k < |segments|
  {
    var a, b := At(segments, k), At(segments, k) + segments[k];
    b <= |image| == |result| && result[a..b] == Applied(net, a, image[a..b])
  }

  /** What a cycle over `segments` makes of an image: there is room for 16 in the stack.  When more
      are sent, some index is used again, and the pieces sent under it are not known. */
  ghost predicate Cycled(net: (nat, byte) -> byte, segments: seq<nat>, indices: seq<nat>, image: seq<byte>,
          result: seq<byte>)
    requires |segments| <= |indices| && At(segments, |segments|) <= |image|
  {
    var n, end := Used(segments), At(segments, |segments|);
    && |result| == |image|
    && (n <= EC_MAXBUF ==> result == Applied(net, 0, image[..end]) + image[end..])
    && (n > EC_MAXBUF ==>
          && At(segments, EC_MAXBUF) <= |image|
          && result[At(segments, EC_MAXBUF)..] == image[At(segments, EC_MAXBUF)..]
          && forall k :: 0 <= k < EC_MAXBUF && !Reused(indices, k, n) ==> PieceDone(net, segments, image, result, k))
  }

  /** Answers of the right lengths to tiles: each is found in its place, and the rest is as before. */
  lemma {:induction false} TilePlaces(answers: map<nat, Answer>, segments: seq<nat>, indices: seq<nat>, hasdc: bool,
          image: seq<byte>, n: nat)
    requires n <= |segments| <= |indices| && At(segments, n) <= |image|
    requires forall k :: 0 <= k < n ==> indices[k] in answers && |answers[indices[k]].data| == segments[k]
    ensures var es := Entries(segments, indices, hasdc, n);
            && Fitting(es, answers, |image|)
            && var r := Collected(image, es, answers);
            && r[At(segments, n)..] == image[At(segments, n)..]
            && forall k :: 0 <= k < n ==>
                 && At(segments, k) + segments[k] <= At(segments, n)
                 && r[At(segments, k)..At(segments, k) + segments[k]] == answers[indices[k]].data
    decreases n
  {
    hide At, Overwrite, Entries, EntryOf;
    EntriesLast(segments, indices, hasdc, n);
    if n == 0 {
    } else {
      AtNext(segments, n - 1);
      TilePlaces(answers, segments, indices, hasdc, image, n - 1);
      var es := Entries(segments, indices, hasdc, n);
      FittingGrows(es, answers, |image|);
      assert Answered(es[n - 1], answers);
      var before, at, data := Collected(image, es[..n - 1], answers), At(segments, n - 1), answers[indices[n - 1]].data;
      forall k | 0 <= k < n - 1
        ensures Collected(image, es, answers)[At(segments, k)..At(segments, k) + segments[k]]
                == answers[indices[k]].data
      {
        OverwriteBehind(before, at, data, At(segments, k), At(segments, k) + segments[k]);
      }
      OverwriteIs(before, at, data);
      assert before[At(segments, n)..] == before[at..][segments[n - 1]..] == image[at..][segments[n - 1]..];
    }
  }

  lemma {:induction false} OverwriteBehind(buf: seq<byte>, at: nat, data: seq<byte>, a: nat, b: nat)
    requires a <= b <= at && at + |data| <= |buf|
    ensures Overwrite(buf, at, data)[a..b] == buf[a..b]
  {
  }

  lemma {:induction false} OverwriteIs(buf: seq<byte>, at: nat, data: seq<byte>)
    requires at + |data| <= |buf|
    ensures Overwrite(buf, at, data)[at..at + |data|] == data
    ensures Overwrite(buf, at, data)[at + |data|..] == buf[at + |data|..]
  {
  }

  /** A cycle that sends the image as it is. */
  method Exchange(c: Context, segments: seq<nat>, indices: seq<nat>, length: nat, start: nat, hasdc: bool,
          net: (nat, byte) -> byte, places: seq<Place>, clockWkc: nat, garbled: nat -> Answer)
    returns (wkc: int)
    requires c.Valid() && c.pushed == 0 && c.pulled == 0 && segments != [] && |segments| <= |indices|
    requires At(segments, |segments|) == length <= c.iomap.Length
    requires forall j, k :: 0 <= j < k < |indices| && k < EC_MAXBUF ==> indices[j] != indices[k]
    modifies c, c.stack, c.iomap
    ensures c.Valid() && c.pushed == 0 && c.pulled == 0
    ensures Cycled(net, segments, indices, old(c.iomap[..]), c.iomap[..])
    ensures length == 0 ==> wkc == NOFRAME
    ensures length > 0 && Used(segments) <= EC_MAXBUF ==> wkc == WkcSum(places, segments, |segments|)
  {
    hide Applied, At, AnswerTo, Collected, Counted, FromBus, Wkc, WkcSum, Fitting, Entries, EntryOf, Used, LrwOf;
    ghost var image, n := c.iomap[..], Used(segments);
    assert image[..length] == c.iomap[..length];
    var sent;
    sent, wkc := c.Send(segments, indices, length, start, hasdc);
    LrwSent(sent, segments, indices, hasdc, start, image[..length]);
    var answers := Transfer(sent, start, net, places, clockWkc, garbled);
    UsedAll(segments);
    AtNone(segments);
    ghost var m := if n <= EC_MAXBUF then n else EC_MAXBUF;
    AtGrows(segments, m, |segments|);
    forall k | 0 <= k < m
      ensures && indices[k] in answers && At(segments, k) + segments[k] <= length
              && answers[indices[k]] == ReadFor(sent, k, start, net, places, clockWkc, garbled)
      ensures n <= EC_MAXBUF || !Reused(indices, k, n) ==> Alone(sent, k)
    {
      assert FirstWith(sent, 0, k);
    }
    if n <= EC_MAXBUF {
      AnsweredByBus(answers, net, places, segments, indices, hasdc, start, clockWkc, image, length, m);
      TilesCollect(answers, net, places, segments, indices, hasdc, image, m);
      EmptyTail(places, segments, m, |segments|);
    } else {
      TilePlaces(answers, segments, indices, hasdc, image, m);
    }
    EntriesAre(c.stack[..c.pushed], segments, indices, hasdc);
    assert Fitting(c.stack[..c.pushed], answers, c.iomap.Length);
    wkc := c.Receive(answers);
    if n > EC_MAXBUF {
      forall k | 0 <= k < EC_MAXBUF && !Reused(indices, k, n)
        ensures PieceDone(net, segments, image, c.iomap[..], k)
      {
        PieceAnswered(answers, net, places, segments, indices, hasdc, start, clockWkc, image, length, k);
      }
    }
  }

  lemma {:induction false} LrwSent(sent: seq<Lrw>, segments: seq<nat>, indices: seq<nat>, hasdc: bool, start: nat,
          image: seq<byte>)
    requires |sent| <= |segments| <= |indices|
    requires forall k :: 0 <= k < |sent| ==>
               At(segments, k) + segments[k] <= |image| && sent[k] == LrwOf(segments, indices, hasdc, start, image, k)
    ensures forall k :: 0 <= k < |sent| ==> sent[k].idx == indices[k] && |sent[k].data| == segments[k]
    ensures forall k :: 0 <= k < |sent| ==> sent[k].logAdr >= start
  {
    hide At;
  }

  lemma {:induction false} PieceAnswered(answers: map<nat, Answer>, net: (nat, byte) -> byte, places: seq<Place>,
          segments: seq<nat>, indices: seq<nat>, hasdc: bool, start: nat, clockWkc: nat, image: seq<byte>, length: nat,
          k: nat)
    requires k < |segments| <= |indices| && At(segments, k) + segments[k] <= length <= |image| && indices[k] in answers
    requires answers[indices[k]]
             == AnswerTo(LrwOf(segments, indices, hasdc, start, image[..length], k), start, net, places, clockWkc)
    ensures var a, b := At(segments, k), At(segments, k) + segments[k];
            answers[indices[k]].data == Applied(net, a, image[a..b])
  {
    AnswerIsBus(answers, net, places, segments, indices, hasdc, start, clockWkc, image, length, k);
  }

  lemma {:induction false} EntriesAre(es: seq<Entry>, segments: seq<nat>, indices: seq<nat>, hasdc: bool)
    requires |es| <= |segments| <= |indices|
    requires forall k :: 0 <= k < |es| ==> es[k] == EntryOf(segments, indices, hasdc, k)
    ensures es == Entries(segments, indices, hasdc, |es|)
  {
    hide EntryOf;
  }

  /** One cycle: the image, its `slen` mailbox status bytes cleared, goes out in its segments, and
      the answers that come back are put in their places and counted. */
  method Cycle(c: Context, segments: seq<nat>, indices: seq<nat>, length: nat, slen: nat, start: nat, hasdc: bool,
          net: (nat, byte) -> byte, places: seq<Place>, clockWkc: nat, garbled: nat -> Answer)
    returns (wkc: int)
    requires c.Valid() && c.pushed == 0 && c.pulled == 0 && segments != [] && |segments| <= |indices|
    requires slen <= At(segments, |segments|) == length <= c.iomap.Length
    requires forall j, k :: 0 <= j < k < |indices| && k < EC_MAXBUF ==> indices[j] != indices[k]
    modifies c, c.stack, c.iomap
    ensures c.Valid() && c.pushed == 0 && c.pulled == 0
    ensures Cycled(net, segments, indices, old(c.iomap[..length - slen]) + Zeros(slen), c.iomap[..length])
    ensures c.iomap[length..] == old(c.iomap[length..])
    ensures length == 0 ==> wkc == NOFRAME
    ensures length > 0 && Used(segments) <= EC_MAXBUF ==> wkc == WkcSum(places, segments, |segments|)
  {
    hide Applied, At, WkcSum, Zeros, Cycled;
    ghost var before := c.iomap[..];
    CopyTo(c.iomap, length - slen, Zeros(slen));
    ghost var image := c.iomap[..];
    assert image[..length] == before[..length - slen] + Zeros(slen) && image[length..] == before[length..];
    assert before[..length - slen] == old(c.iomap[..length - slen]) && before[length..] == old(c.iomap[length..]);
    wkc := Exchange(c, segments, indices, length, start, hasdc, net, places, clockWkc, garbled);
    CycledPart(net, segments, indices, image, c.iomap[..], length);
    assert c.iomap[..length] == c.iomap[..][..length] && c.iomap[length..] == c.iomap[..][length..];
  }

  /** Bytes behind the segments stay out of it. */
  lemma {:induction false} CycledPart(net: (nat, byte) -> byte, segments: seq<nat>, indices: seq<nat>, image: seq<byte>,
          result: seq<byte>, length: nat)
    requires |segments| <= |indices| && At(segments, |segments|) <= length <= |image|
    requires Cycled(net, segments, indices, image, result)
    ensures Cycled(net, segments, indices, image[..length], result[..length])
    ensures result[length..] == image[length..]
  {
    hide At, Applied, Used, Reused;
    var end, n := At(segments, |segments|), Used(segments);
    UsedAll(segments);
    assert image[..length][..end] == image[..end];
    if n > EC_MAXBUF {
      var at := At(segments, EC_MAXBUF);
      AtGrows(segments, EC_MAXBUF, |segments|);
      assert result[at..][length - at..] == result[length..] && image[at..][length - at..] == image[length..];
      assert result[at..][..length - at] == result[..length][at..];
      assert image[at..][..length - at] == image[..length][at..];
      forall k | 0 <= k < EC_MAXBUF && !Reused(indices, k, n)
        ensures PieceDone(net, segments, image[..length], result[..length], k)
      {
        assert PieceDone(net, segments, image, result, k);
        AtNext(segments, k);
        AtGrows(segments, k + 1, |segments|);
        var a, b := At(segments, k), At(segments, k) + segments[k];
        assert image[..length][a..b] == image[a..b] && result[..length][a..b] == result[a..b];
      }
    }
  }

  /** The image becomes what the slaves make of it in one datagram over all of it. */
  ghost predicate AsOneDatagram(segments: seq<nat>, indices: seq<nat>, image: seq<byte>)
    requires |segments| <= |indices| && At(segments, |segments|) == |image|
  {
    forall net: (nat, byte) -> byte, result: seq<byte> ::
      Cycled(net, segments, indices, image, result) ==> result == Applied(net, 0, image)
  }

  /** A cycle does to the image, byte by byte and whatever the bus, what one datagram over the whole
      image would do, if and only if at most 16 segments are sent. */
  lemma {:induction false} CycleRefines(segments: seq<nat>, indices: seq<nat>, image: seq<byte>)
    requires |segments| <= |indices| && At(segments, |segments|) == |image|
    ensures AsOneDatagram(segments, indices, image) <==> Used(segments) <= EC_MAXBUF
  {
    hide At, Applied, Used;
    UsedAll(segments);
    assert image[..|image|] == image && image[|image|..] == [];
    if Used(segments) > EC_MAXBUF {
      var net := (at: nat, b: byte) => if b == 0 then 1 as byte else 0;
      var end := At(segments, EC_MAXBUF);
      var result := Applied(net, 0, image[..end]) + image[end..];
      FirstPieces(net, segments, indices, image);
      AppliedAt(net, image, end);
      assert result[end] == image[end];
    }
  }

  /** The best that can come of more than 16 segments. */
  lemma {:induction false} FirstPieces(net: (nat, byte) -> byte, segments: seq<nat>, indices: seq<nat>,
          image: seq<byte>)
    requires |segments| <= |indices| && At(segments, |segments|) == |image| && Used(segments) > EC_MAXBUF
    ensures At(segments, EC_MAXBUF) < |image|
    ensures var end := At(segments, EC_MAXBUF);
            Cycled(net, segments, indices, image, Applied(net, 0, image[..end]) + image[end..])
  {
    hide At, Used, Reused;
    UsedAll(segments);
    var end := At(segments, EC_MAXBUF);
    forall k | 0 <= k < EC_MAXBUF
      ensures PieceDone(net, segments, image, Applied(net, 0, image[..end]) + image[end..], k)
    {
      AtNext(segments, k);
      AtGrows(segments, k + 1, EC_MAXBUF);
    }
  }

  lemma {:induction false} AppliedAt(net: (nat, byte) -> byte, image: seq<byte>, k: nat)
    requires k < |image|
    ensures Applied(net, 0, image)[k] == net(k, image[k])
  {
  }
}
