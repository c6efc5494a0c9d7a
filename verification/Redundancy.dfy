/** Redundant cabling: a chain of slaves with the master at both ends.

    Every request leaves as two frames of one index, the request itself on the primary socket and
    a dummy read on the secondary.  A slave processes a frame only on its way up the chain, away
    from the primary socket; a port without a link turns the frame around.  From what comes back
    where, the master puts the answer together, sending the request once more if it has to.
  */
module Redundancy {

  /** What a slave sees of a datagram: its data and its working counter. */
  datatype Gram<D> = Gram(data: D, wkc: nat)

  /** The source address of a frame, 0 before there is one. */
  datatype Source = Nowhere | Primary | Secondary

  datatype Frame<D> = Frame(src: Source, gram: Gram<D>)

  /** Where a frame ends up. */
  datatype Arrival<D> = Lost | AtPrimary(gram: Gram<D>) | AtSecondary(gram: Gram<D>)

  /** Links are numbered from the primary socket, 0, to the secondary, the number of slaves. */
  datatype Cut = Whole | Broken(link: nat)

  predicate Linked(cut: Cut, link: nat)
  {
    cut != Broken(link)
  }

  // ----- The specification: one pass along the chain -----

  /** A datagram handed through all slaves in order. */
  function Pass<S, D>(run: (S, Gram<D>) -> (S, Gram<D>), slaves: seq<S>, g: Gram<D>): (r: (seq<S>, Gram<D>))
    ensures |r.0| == |slaves|
  {
    if slaves == [] then ([], g)
    else
      var here := run(slaves[0], g);
      var rest := Pass(run, slaves[1..], here.1);
      ([here.0] + rest.0, rest.1)
  }

  lemma {:induction false} PassSplits<S, D>(run: (S, Gram<D>) -> (S, Gram<D>), a: seq<S>, b: seq<S>, g: Gram<D>)
    ensures Pass(run, a + b, g).0 == Pass(run, a, g).0 + Pass(run, b, Pass(run, a, g).1).0
    ensures Pass(run, a + b, g).1 == Pass(run, b, Pass(run, a, g).1).1
    decreases a
  {
    if a == [] {
      assert a + b == b;
    } else {
      assert (a + b)[0] == a[0] && (a + b)[1..] == a[1..] + b;
      PassSplits(run, a[1..], b, run(a[0], g).1);
    }
  }

  // ----- The wire, slave by slave -----

  /** The frame enters slave `i` from below, or was turned around at its lower port. */
  function Up<S, D>(run: (S, Gram<D>) -> (S, Gram<D>), slaves: seq<S>, cut: Cut, i: nat,
          g: Gram<D>): (seq<S>, Arrival<D>)
    requires i < |slaves|
    decreases if cut.Broken? && i < cut.link then 2 else 1, |slaves| - i
  {
    var here := run(slaves[i], g);
    var after := slaves[i := here.0];
    if !Linked(cut, i + 1) then Down(run, after, cut, i, here.1)
    else if i + 1 == |slaves| then (after, AtSecondary(here.1))
    else Up(run, after, cut, i + 1, here.1)
  }

  /** The frame comes to slave `i` from above, or was turned around at its upper port. */
  function Down<S, D>(run: (S, Gram<D>) -> (S, Gram<D>), slaves: seq<S>, cut: Cut, i: nat,
          g: Gram<D>): (seq<S>, Arrival<D>)
    requires i < |slaves|
    decreases if cut.Broken? && i < cut.link then 1 else 2, i
  {
    if !Linked(cut, i) then Up(run, slaves, cut, i, g)
    else if i == 0 then (slaves, AtPrimary(g))
    else Down(run, slaves, cut, i - 1, g)
  }

  function FromPrimary<S, D>(run: (S, Gram<D>) -> (S, Gram<D>), slaves: seq<S>, cut: Cut,
          g: Gram<D>): (seq<S>, Arrival<D>)
    requires slaves != []
  {
    if Linked(cut, 0) then Up(run, slaves, cut, 0, g) else (slaves, Lost)
  }

  function FromSecondary<S, D>(run: (S, Gram<D>) -> (S, Gram<D>), slaves: seq<S>, cut: Cut,
          g: Gram<D>): (seq<S>, Arrival<D>)
    requires slaves != []
  {
    if Linked(cut, |slaves|) then Down(run, slaves, cut, |slaves| - 1, g) else (slaves, Lost)
  }

  lemma {:induction false} DownReturns<S, D>(run: (S, Gram<D>) -> (S, Gram<D>), slaves: seq<S>, cut: Cut, i: nat,
          g: Gram<D>)
    requires i < |slaves| && (cut.Broken? ==> i < cut.link)
    ensures Down(run, slaves, cut, i, g) == (slaves, AtPrimary(g))
    decreases i
  {
    if i > 0 {
      DownReturns(run, slaves, cut, i - 1, g);
    }
  }

  lemma {:induction false} DownTurns<S, D>(run: (S, Gram<D>) -> (S, Gram<D>), slaves: seq<S>, k: nat, i: nat,
          g: Gram<D>)
    requires k <= i < |slaves|
    ensures Down(run, slaves, Broken(k), i, g) == Up(run, slaves, Broken(k), k, g)
    decreases i
  {
    if i > k {
      DownTurns(run, slaves, k, i - 1, g);
    }
  }

  /** Going up from slave `i` is a pass over the slaves up to the next cut, or to the end. */
  lemma {:induction false} UpPasses<S, D>(run: (S, Gram<D>) -> (S, Gram<D>), slaves: seq<S>, cut: Cut, i: nat, end: nat,
          g: Gram<D>)
    requires i < end <= |slaves|
    requires if cut.Broken? && i < cut.link then end == cut.link else end == |slaves|
    ensures var r := Pass(run, slaves[i..end], g);
            Up(run, slaves, cut, i, g)
            == (slaves[..i] + r.0 + slaves[end..],
                if cut.Broken? && i < cut.link then AtPrimary(r.1) else AtSecondary(r.1))
    decreases end - i
  {
    var here := run(slaves[i], g);
    var after := slaves[i := here.0];
    var rest := Pass(run, slaves[i + 1..end], here.1);
    assert slaves[i..end][1..] == slaves[i + 1..end] == after[i + 1..end];
    assert slaves[..i] + ([here.0] + rest.0) + slaves[end..] == after[..i + 1] + rest.0 + after[end..];
    if i + 1 < end {
      UpPasses(run, after, cut, i + 1, end, here.1);
    } else {
      assert rest == ([], here.1) && after == after[..i + 1] + [] + after[end..];
      if !Linked(cut, end) {
        DownReturns(run, after, cut, i, here.1);
      }
    }
  }

  /** A request sent from the primary socket: turned back by a cut, or through to the secondary. */
  lemma {:induction false} RequestRoute<S, D>(run: (S, Gram<D>) -> (S, Gram<D>), slaves: seq<S>, cut: Cut, g: Gram<D>)
    requires slaves != [] && (cut.Broken? ==> cut.link <= |slaves|)
    ensures cut == Whole ==>
            FromPrimary(run, slaves, cut, g) == (Pass(run, slaves, g).0, AtSecondary(Pass(run, slaves, g).1))
    ensures cut.Broken? && cut.link > 0 ==>
              var r := Pass(run, slaves[..cut.link], g);
              FromPrimary(run, slaves, cut, g) == (r.0 + slaves[cut.link..], AtPrimary(r.1))
    ensures cut == Broken(0) ==> FromPrimary(run, slaves, cut, g) == (slaves, Lost)
  {
    if cut != Broken(0) {
      var end := if cut.Broken? then cut.link else |slaves|;
      UpPasses(run, slaves, cut, 0, end, g);
      assert slaves[0..|slaves|] == slaves && slaves[0..end] == slaves[..end];
      var r := Pass(run, slaves[..end], g);
      assert slaves[..0] + r.0 + slaves[end..] == r.0 + slaves[end..];
      assert end == |slaves| ==> r.0 + slaves[end..] == r.0;
    }
  }

  /** A frame sent from the secondary socket: down to the primary untouched, or processed by the
      slaves above the cut. */
  lemma {:induction false} ReturnRoute<S, D>(run: (S, Gram<D>) -> (S, Gram<D>), slaves: seq<S>, cut: Cut, g: Gram<D>)
    requires slaves != [] && (cut.Broken? ==> cut.link <= |slaves|)
    ensures cut == Whole ==> FromSecondary(run, slaves, cut, g) == (slaves, AtPrimary(g))
    ensures cut.Broken? && cut.link < |slaves| ==>
              var r := Pass(run, slaves[cut.link..], g);
              FromSecondary(run, slaves, cut, g) == (slaves[..cut.link] + r.0, AtSecondary(r.1))
    ensures cut == Broken(|slaves|) ==> FromSecondary(run, slaves, cut, g) == (slaves, Lost)
  {
    if cut == Whole {
      DownReturns(run, slaves, cut, |slaves| - 1, g);
    } else if cut.link < |slaves| {
      var k := cut.link;
      DownTurns(run, slaves, k, |slaves| - 1, g);
      UpPasses(run, slaves, cut, k, |slaves|, g);
      assert slaves[k..|slaves|] == slaves[k..];
      var r := Pass(run, slaves[k..], g);
      assert slaves[..k] + r.0 + slaves[|slaves|..] == slaves[..k] + r.0;
    }
  }

  /** Grams that leave every slave as it is, and stay of that kind: the dummy reads. */
  ghost predicate Quiet<S(!new), D(!new)>(run: (S, Gram<D>) -> (S, Gram<D>), quiet: iset<Gram<D>>)
  {
    forall s: S, g: Gram<D> :: g in quiet ==> run(s, g).0 == s && run(s, g).1 in quiet
  }

  lemma {:induction false} QuietPass<S(!new), D(!new)>(run: (S, Gram<D>) -> (S, Gram<D>), slaves: seq<S>, g: Gram<D>,
          quiet: iset<Gram<D>>)
    requires Quiet(run, quiet) && g in quiet
    ensures Pass(run, slaves, g).0 == slaves
    decreases slaves
  {
    if slaves != [] {
      QuietPass(run, slaves[1..], run(slaves[0], g).1, quiet);
    }
  }

  // ----- The two sockets -----

  datatype Line<D> = Silent | Coming(frame: Frame<D>)

  const NOFRAME := -1

  /** The frame on a line is in before the timer expires. */
  predicate InTime<D>(line: Line<D>, at: nat, patience: nat)
  {
    line.Coming? && at < patience
  }

  /** The two stacks of a port for one frame index, and the chain between them. */
  class Port<S(!new), D(!new)> {
    const run: (S, Gram<D>) -> (S, Gram<D>)
    const cut: Cut
    const dummy: Gram<D>
    var slaves: seq<S>
    var txbuf: Gram<D>
    var rxbuf: Gram<D>
    var rxbuf2: Gram<D>
    var rxsa: Source
    var rxsa2: Source
    var line: Line<D>
    var line2: Line<D>

    ghost predicate Valid()
      reads this
    {
      slaves != [] && (cut.Broken? ==> cut.link <= |slaves|)
    }

    constructor (run: (S, Gram<D>) -> (S, Gram<D>), cut: Cut, slaves: seq<S>, dummy: Gram<D>)
      requires slaves != [] && (cut.Broken? ==> cut.link <= |slaves|)
      ensures Valid() && this.run == run && this.cut == cut && this.slaves == slaves && this.dummy == dummy
      ensures line == Silent && line2 == Silent
    {
      this.run, this.cut, this.slaves, this.dummy := run, cut, slaves, dummy;
      txbuf, rxbuf, rxbuf2, rxsa, rxsa2 := dummy, dummy, dummy, Nowhere, Nowhere;
      line, line2 := Silent, Silent;
    }

    /** One frame out of one socket. */
    method Send(second: bool, src: Source, g: Gram<D>)
      requires Valid()
      modifies this`slaves, this`line, this`line2
      ensures var r := if second then FromSecondary(run, old(slaves), cut, g)
                       else FromPrimary(run, old(slaves), cut, g);
              && slaves == r.0
              && line == (if r.1.AtPrimary? then Coming(Frame(src, r.1.gram)) else old(line))
              && line2 == (if r.1.AtSecondary? then Coming(Frame(src, r.1.gram)) else old(line2))
    {
      var r := if second then FromSecondary(run, slaves, cut, g) else FromPrimary(run, slaves, cut, g);
      slaves := r.0;
      match r.1
      case Lost =>
      case AtPrimary(h) => line := Coming(Frame(src, h));
      case AtSecondary(h) => line2 := Coming(Frame(src, h));
    }

    /** The request on the primary socket, the dummy on the secondary. */
    method OutFrameRed(ghost quiet: iset<Gram<D>>)
      requires Valid() && line == Silent && line2 == Silent
      requires Quiet(run, quiet) && dummy in quiet
      modifies this`slaves, this`line, this`line2
      ensures Valid() && |slaves| == |old(slaves)|
      ensures cut == Whole ==>
                && slaves == Pass(run, old(slaves), txbuf).0
                && line == Coming(Frame(Secondary, dummy))
                && line2 == Coming(Frame(Primary, Pass(run, old(slaves), txbuf).1))
      ensures cut.Broken? ==>
                var r := Pass(run, old(slaves)[..cut.link], txbuf);
                && slaves == r.0 + old(slaves)[cut.link..]
                && line == (if cut.link > 0 then Coming(Frame(Primary, r.1)) else Silent)
                && (if cut.link < |slaves| then line2.Coming? && line2.frame.src == Secondary else line2 == Silent)
    {
      hide FromPrimary, FromSecondary;
      RequestRoute(run, slaves, cut, txbuf);
      Send(false, Primary, txbuf);
      ReturnRoute(run, slaves, cut, dummy);
      if cut.Broken? {
        QuietPass(run, slaves[cut.link..], dummy, quiet);
        assert slaves[..cut.link] + slaves[cut.link..] == slaves;
      }
      Send(true, Secondary, dummy);
    }

    /** One look at a socket; its frame can be read from poll `at` on. */
    method InFrame(second: bool, poll: nat, at: nat) returns (wkc: int)
      modifies this`rxbuf, this`rxbuf2, this`rxsa, this`rxsa2, this`line, this`line2
      ensures if !second && old(line).Coming? && poll >= at
              then line == Silent && rxbuf == old(line).frame.gram && rxsa == old(line).frame.src
              else unchanged(this`line) && unchanged(this`rxbuf) && unchanged(this`rxsa)
      ensures if second && old(line2).Coming? && poll >= at
              then line2 == Silent && rxbuf2 == old(line2).frame.gram && rxsa2 == old(line2).frame.src
              else unchanged(this`line2) && unchanged(this`rxbuf2) && unchanged(this`rxsa2)
      ensures var l := if second then old(line2) else old(line);
              wkc == if l.Coming? && poll >= at then l.frame.gram.wkc else NOFRAME
    {
      wkc := NOFRAME;
      if !second && line.Coming? && poll >= at {
        rxbuf, rxsa, line, wkc := line.frame.gram, line.frame.src, Silent, line.frame.gram.wkc;
      } else if second && line2.Coming? && poll >= at {
        rxbuf2, rxsa2, line2, wkc := line2.frame.gram, line2.frame.src, Silent, line2.frame.gram.wkc;
      }
    }

    /** Looks at both sockets until both frames are in, or the timer expires after `patience` looks. */
    method PollBoth(at: nat, at2: nat, patience: nat) returns (wkc: int, wkc2: int)
      modifies this`rxbuf, this`rxbuf2, this`rxsa, this`rxsa2, this`line, this`line2
      ensures if InTime(old(line), at, patience)
              then line == Silent && rxbuf == old(line).frame.gram && rxsa == old(line).frame.src && wkc == rxbuf.wkc
              else line == old(line) && rxbuf == old(rxbuf) && wkc == NOFRAME
      ensures if InTime(old(line2), at2, patience)
              then line2 == Silent && rxbuf2 == old(line2).frame.gram && rxsa2 == old(line2).frame.src
                   && wkc2 == rxbuf2.wkc
              else line2 == old(line2) && wkc2 == NOFRAME
    {
      wkc, wkc2 := NOFRAME, NOFRAME;
      var poll := 0;
      while poll < patience && (wkc <= NOFRAME || wkc2 <= NOFRAME)
        invariant wkc >= NOFRAME && wkc2 >= NOFRAME && poll <= patience
        invariant if wkc == NOFRAME then line == old(line) && rxbuf == old(rxbuf) && (line.Coming? ==> poll <= at)
                  else InTime(old(line), at, patience) && line == Silent && rxbuf == old(line).frame.gram
                       && rxsa == old(line).frame.src && wkc == rxbuf.wkc
        invariant if wkc2 == NOFRAME then line2 == old(line2) && (line2.Coming? ==> poll <= at2)
                  else InTime(old(line2), at2, patience) && line2 == Silent && rxbuf2 == old(line2).frame.gram
                       && rxsa2 == old(line2).frame.src && wkc2 == rxbuf2.wkc
      {
        if wkc <= NOFRAME {
          wkc := InFrame(false, poll, at);
        }
        if wkc2 <= NOFRAME {
          wkc2 := InFrame(true, poll, at2);
        }
        poll := poll + 1;
      }
    }

    /** Waits for both frames, and puts the answer together in the primary buffer; a frame that is
        not in when the timer expires is as good as lost. */
    method WaitInFrameRed(at: nat, at2: nat, patience: nat, at3: nat, patience3: nat) returns (wkc: int)
      requires Valid()
      modifies this`slaves, this`txbuf, this`rxbuf, this`rxbuf2, this`rxsa, this`rxsa2, this`line, this`line2
      ensures var prim := if InTime(old(line), at, patience) then old(line).frame.src else Nowhere;
              var sec := if InTime(old(line2), at2, patience) then old(line2).frame.src else Nowhere;
              var direct := if InTime(old(line), at, patience) then old(line).frame.gram.wkc else NOFRAME;
              if sec == Secondary && prim != Secondary then
                var g := if prim == Primary then old(line).frame.gram else old(txbuf);
                var r := FromSecondary(run, old(slaves), cut, g);
                && slaves == r.0
                && if r.1.AtSecondary? && at3 < patience3 then rxbuf == r.1.gram && wkc == rxbuf.wkc else wkc == direct
              else if prim == Secondary && sec == Primary then
                slaves == old(slaves) && rxbuf == old(line2).frame.gram && wkc == rxbuf.wkc
              else
                && slaves == old(slaves) && wkc == direct
                && rxbuf == if InTime(old(line), at, patience) then old(line).frame.gram else old(rxbuf)
    {
      hide FromSecondary;
      var wkc2;
      wkc, wkc2 := PollBoth(at, at2, patience);
      var primrx := if wkc > NOFRAME then rxsa else Nowhere;
      var secrx := if wkc2 > NOFRAME then rxsa2 else Nowhere;
      if primrx == Secondary && secrx == Primary {
        rxbuf := rxbuf2;
        wkc := wkc2;
      }
      if (primrx == Nowhere && secrx == Secondary) || (primrx == Primary && secrx == Secondary) {
        if primrx == Primary && secrx == Secondary {
          txbuf := rxbuf;
        }
        Send(true, Primary, txbuf);
        var poll := 0;
        wkc2 := NOFRAME;
        ghost var r := FromSecondary(run, old(slaves), cut, txbuf).1;
        while wkc2 <= NOFRAME && poll < patience3
          modifies this`rxbuf, this`rxbuf2, this`rxsa, this`rxsa2, this`line, this`line2
          invariant wkc2 >= NOFRAME && poll <= patience3
          invariant if wkc2 == NOFRAME then line2 == (if r.AtSecondary? then Coming(Frame(Primary, r.gram)) else Silent)
                                            && (r.AtSecondary? ==> poll <= at3)
                    else r.AtSecondary? && at3 < patience3 && rxbuf2 == r.gram && wkc2 == r.gram.wkc
        {
          wkc2 := InFrame(true, poll, at3);
          poll := poll + 1;
        }
        if wkc2 > NOFRAME {
          rxbuf := rxbuf2;
          wkc := wkc2;
        }
      }
    }

    /** With the chain whole or cut at any one link, the answer left in the primary buffer, its
        working counter and the slaves are what one pass through all slaves makes of the request,
        in whatever order the frames come in before the timers expire. */
    method Exchange(at: nat, at2: nat, patience: nat, at3: nat, patience3: nat, ghost quiet: iset<Gram<D>>)
      returns (wkc: int)
      requires Valid() && line == Silent && line2 == Silent
      requires Quiet(run, quiet) && dummy in quiet
      requires at < patience && at2 < patience && at3 < patience3
      modifies this`slaves, this`txbuf, this`rxbuf, this`rxbuf2, this`rxsa, this`rxsa2, this`line, this`line2
      ensures slaves == Pass(run, old(slaves), old(txbuf)).0
      ensures rxbuf == Pass(run, old(slaves), old(txbuf)).1
      ensures wkc == rxbuf.wkc
    {
      hide FromSecondary, FromPrimary, Quiet;
      ghost var before, tx := slaves, txbuf;
      OutFrameRed(quiet);
      if cut.Broken? {
        ghost var k := cut.link;
        ghost var r := Pass(run, before[..k], tx);
        PassSplits(run, before[..k], before[k..], tx);
        assert before[..k] + before[k..] == before;
        ReturnRoute(run, slaves, cut, r.1);
        assert slaves[k..] == before[k..] && slaves[..k] == r.0;
        if k == |before| {
          assert before[k..] == [];
        }
      }
      wkc := WaitInFrameRed(at, at2, patience, at3, patience3);
    }
  }
}
