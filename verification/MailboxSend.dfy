/** Sending one mailbox and giving it up: the client side of the transmit queue. */
module MailboxSend {

  /** What the sender does with the mailbox and with its ticket: the mailbox goes into the queue, is
      written to the slave, or goes back to the pool; the ticket is given up as done or as expired. */
  datatype Event = Queued | Written | Dropped | Done | Expired

  /** What the sender finds.  `room(k)` and `done(k)` are the answers of the queue to its attempts
      when the timer has been read `k` times; the timer has run out from reading `deadline` on. */
  datatype World = World(cyclic: bool, mbxl: nat, maxmbx: nat, preop: bool, room: nat -> bool, done: nat -> bool,
                         deadline: nat, wkc1: int, empty: bool, wkc2: int)

  function Writes(n: nat): seq<Event>
  {
    if n == 0 then [] else [Written] + Writes(n - 1)
  }

  /** The queue has room first when the timer has been read `k` times, and in time. */
  predicate Enters(w: World, k: nat)
  {
    k <= w.deadline && w.room(k) && forall i :: 0 <= i < k ==> !w.room(i)
  }

  /** The ticket is done at one of the readings from `k` on, and in time. */
  predicate DoneFrom(w: World, k: nat)
  {
    exists j :: k <= j <= w.deadline && w.done(j)
  }

  /** Asks for the ticket taken at reading `start` until it is done or the time is over. */
  method AwaitDone(w: World, start: nat) returns (done: bool)
    requires start <= w.deadline
    ensures done <==> DoneFrom(w, start)
  {
    var polls, expired := start, false;
    done := false;
    while !done && !expired
      invariant start <= polls <= w.deadline + 1 && expired == (!done && polls > w.deadline)
      invariant forall j :: start <= j < polls ==> !w.done(j)
      invariant done ==> polls <= w.deadline && w.done(polls)
      decreases !done, w.deadline + 1 - polls
    {
      done := w.done(polls);
      if !done {
        expired := polls >= w.deadline;
        polls := polls + 1;
      }
    }
  }

  /** With a cyclic handler: tries the queue until there is room or the time is over. */
  method SendQueued(w: World) returns (wkc: int, log: seq<Event>)
    ensures 0 <= wkc <= 1
    ensures log == [] ==> wkc == 0 && forall i :: 0 <= i <= w.deadline ==> !w.room(i)
    ensures log != [] ==> exists k :: Enters(w, k) && wkc == (if DoneFrom(w, k) then 1 else 0)
                                      && log == [Queued, if DoneFrom(w, k) then Done else Expired]
  {
    wkc, log := 0, [];
    var polls, expired := 0, false;
    while log == [] && !expired
      invariant polls <= w.deadline + 1 && (log == [] ==> expired == (polls > w.deadline) && wkc == 0)
      invariant log == [] ==> forall i :: 0 <= i < polls ==> !w.room(i)
      invariant 0 <= wkc <= 1
      invariant log != [] ==> Enters(w, polls) && wkc == (if DoneFrom(w, polls) then 1 else 0)
                              && log == [Queued, if DoneFrom(w, polls) then Done else Expired]
      decreases log == [], w.deadline + 1 - polls
    {
      if w.room(polls) {
        var done := AwaitDone(w, polls);
        wkc := if done then 1 else 0;
        log := [Queued, if done then Done else Expired];
      } else {
        expired := polls >= w.deadline;
        polls := polls + 1;
      }
    }
  }

  lemma {:induction false} OneEnters(w: World, k: nat, l: nat)
    requires Enters(w, k) && Enters(w, l)
    ensures k == l
  {
  }

  lemma {:induction false} WritesFew()
    ensures Writes(0) == [] && Writes(1) == [Written] && Writes(2) == [Written, Written]
  {
    assert Writes(1) == [Written] + Writes(0);
  }

  /** The mailbox is given up exactly once.  With a cyclic handler it is put into the queue as soon as
      there is room, and then its ticket is given up exactly once: as done, and that is the success,
      exactly when the queue says so in time.  When there is no room in time, it is dropped.  Without
      a handler it is written once, and once more if that failed and the slave's mailbox is found
      empty, and the send succeeds exactly when a write did. */
  method MbxSend(w: World) returns (wkc: int, log: seq<Event>)
    ensures wkc >= 0 && (w.mbxl == 0 ==> wkc == 0 && log == [Dropped])
    ensures w.cyclic ==> log == [Dropped] || log == [Queued, Done] || log == [Queued, Expired]
    ensures w.cyclic && w.mbxl > 0 ==> (wkc > 0 <==> exists k :: Enters(w, k) && DoneFrom(w, k))
    ensures w.cyclic && w.mbxl > 0 ==> (log == [Queued, Done] <==> wkc > 0)
    ensures w.cyclic && w.mbxl > 0 ==> (log == [Queued, Expired] <==> exists k :: Enters(w, k) && !DoneFrom(w, k))
    ensures w.cyclic && w.mbxl > 0 ==> (log == [Dropped] <==> forall k :: 0 <= k <= w.deadline ==> !w.room(k))
    ensures !w.cyclic ==>
              var writes := if !(0 < w.mbxl <= w.maxmbx && w.preop) then 0 else if w.wkc1 > 0 || !w.empty then 1 else 2;
              && log == Writes(writes) + [Dropped]
              && (wkc > 0 <==> (writes >= 1 && w.wkc1 > 0) || (writes == 2 && w.wkc2 > 0))
  {
    wkc, log := 0, [];
    var held := true;
    if w.cyclic {
      if w.mbxl > 0 {
        wkc, log := SendQueued(w);
        held := log == [];
        forall k, l | Enters(w, k) && Enters(w, l) ensures k == l {
          OneEnters(w, k, l);
        }
      }
    } else if w.mbxl > 0 && w.mbxl <= w.maxmbx && w.preop {
      wkc, log := w.wkc1, log + [Written];
      if wkc <= 0 && w.empty {
        wkc, log := w.wkc2, log + [Written];
      }
      if wkc < 0 {
        wkc := 0;
      }
    }
    WritesFew();
    if held {
      log := log + [Dropped];
    }
  }
}
