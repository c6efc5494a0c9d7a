/** Every step of the mailbox system keeps the invariant, save one. */
module MailboxSteps {
  import opened Ring
  import opened MailboxQueue
  import opened MailboxSystem
  import opened MailboxInvariant

  /** A queued mailbox that is not finished is the queue's alone. */
  lemma {:induction false} QueuedIsOwned(s: Sys, x: Aux, k: nat)
    requires Inv(s, x) && InQueue(s.q, s.n, k) && s.q.slots[k].state != Done
    ensures s.q.slots[k].mbx.Mbx? && x.owner[s.q.slots[k].mbx.item] == Queued(k)
  {
    assert SlotOk(s.q.slots[k], k == Finishing(s.pc));
    assert Holds(s, Queued(k), s.q.slots[k].mbx.item);
  }

  // ----- Filling a mailbox from the pool -----

  ghost predicate Fills(s: Sys, s': Sys, p: Place)
    requires Sized(s) && s.pool.count > 0
  {
    || (p == Held && s' == Apply(s, ClientGet))
    || (p == InHandler && s.pc.Idle? && s' == Apply(s, InFetch))
  }

  lemma {:induction false} FillMoves(s: Sys, owner: seq<Place>, p: Place, s': Sys)
    requires Sized(s) && Conserved(s, owner) && s.pool.count > 0 && Fills(s, s', p)
    ensures Sized(s') && Moved(s, s', s.pool.list[s.pool.tail], p)
  {
    var i := s.pool.list[s.pool.tail];
    assert Holds(s, Free(s.pool.tail), i);
    forall r: Place, j: nat ensures Holds(s', r, j) <==> if j == i then r == p else Holds(s, r, j) {
      if j == i && Holds(s, r, j) {
        assert r == Free(s.pool.tail);
      }
    }
  }

  lemma {:induction false} FillTells(s: Sys, x: Aux, s': Sys, p: Place)
    requires Inv(s, x) && s.pool.count > 0 && Fills(s, s', p)
    ensures TicketsTold(s'.q, s'.n, s'.tickets, s'.content, s'.sent) && HandlerOk(s')
  {
    var i := s.pool.list[s.pool.tail];
    assert Holds(s, Free(s.pool.tail), i);
    forall t | t in s.tickets && t < s.n && 0 <= s.q.ticket[t] < s.n
      ensures Told(s.q.slots[s.q.ticket[t]], s.tickets[t], s'.content, s.sent)
    {
      assert LiveTicket(s.q, s.n, x.back, t);
      if s.q.slots[s.q.ticket[t]].state != Done {
        QueuedIsOwned(s, x, s.q.ticket[t]);
      }
    }
    if s.pc.Sent? {
      QueuedIsOwned(s, x, s.pc.loc);
    }
  }

  lemma {:induction false} FillKeeps(s: Sys, x: Aux, p: Place, s': Sys)
    requires Inv(s, x) && s.pool.count > 0 && Fills(s, s', p)
    ensures Inv(s', Aux(x.owner[s.pool.list[s.pool.tail] := p], x.back))
  {
    FillMoves(s, x.owner, p, s');
    MovedConserves(s, s', s.pool.list[s.pool.tail], p, x.owner);
    FillTells(s, x, s', p);
    hide Conserved, TicketsTold, HandlerOk;
  }

  // ----- Giving a mailbox back to the pool -----

  /** A client drops mailbox `i`, or the handler does after sending, removing or refusing it. */
  ghost predicate Returns(s: Sys, s': Sys, i: nat)
    requires Sized(s)
  {
    && s' == s.(pool := Put(s.pool, s.n, i), held := s'.held, pc := s'.pc)
    && ( || (i in s.held && s'.held == s.held - {i} && s'.pc == s.pc)
         || (s'.held == s.held && s.pc.Marked? && s.pc.item == i && s'.pc == Returned(s.pc.rem, s.pc.loc))
         || (s'.held == s.held && s.pc.Give? && s.pc.item == i && s'.pc == Loop(s.pc.rem))
         || (s'.held == s.held && s.pc.Fetched? && s.pc.item == i && s'.pc == Idle))
  }

  ghost function ReturnedFrom(s: Sys, s': Sys): Place
  {
    if s'.pc == s.pc then Held else if s.pc.Marked? then Queued(s.pc.loc) else InHandler
  }

  lemma {:induction false} PutExtends(pool: Pool, n: nat, i: nat, k: nat, j: nat)
    requires PoolSized(pool, n) && pool.count < n && i < n
    ensures PoolSized(Put(pool, n, i), n)
    ensures InPool(Put(pool, n, i), n, k, j) <==> InPool(pool, n, k, j) || (k == pool.head && j == i)
  {
  }

  lemma {:induction false} ReturnMovesAt(s: Sys, s': Sys, i: nat, r: Place, j: nat)
    requires Sized(s) && Sized(s') && Returns(s, s', i) && i < s.n && s.pool.count < s.n && HandlerOk(s)
    ensures Holds(s', r, j) <==>
            (Holds(s, r, j) && !(j == i && r == ReturnedFrom(s, s'))) || (j == i && r == Free(s.pool.head))
  {
    if r.Free? {
      PutExtends(s.pool, s.n, i, r.entry, j);
    }
  }

  lemma {:induction false} ReturnMoves(s: Sys, x: Aux, s': Sys, i: nat)
    requires Inv(s, x) && Returns(s, s', i)
    ensures i < s.n && Sized(s') && Moved(s, s', i, Free(s.pool.head)) && s.pool.count < s.n
  {
    assert Holds(s, ReturnedFrom(s, s'), i);
    RoomInPool(s, x.owner, i);
    PutExtends(s.pool, s.n, i, 0, 0);
    forall r: Place, j: nat ensures Holds(s', r, j) <==> if j == i then r == Free(s.pool.head) else Holds(s, r, j) {
      ReturnMovesAt(s, s', i, r, j);
    }
  }

  lemma {:induction false} ReturnKeeps(s: Sys, x: Aux, s': Sys, i: nat)
    requires Inv(s, x) && Returns(s, s', i) && i < s.n
    ensures Inv(s', Aux(x.owner[i := Free(s.pool.head)], x.back))
  {
    ReturnMoves(s, x, s', i);
    MovedConserves(s, s', i, Free(s.pool.head), x.owner);
    hide Conserved;
  }

  // ----- Adding a mailbox to the queue -----

  lemma {:induction false} AddMatches(q: Queue, n: nat, tickets: map<nat, nat>, back: seq<nat>, slave: nat, i: nat,
          message: nat)
    requires WellSized(q, n) && q.count < n && FirstFree(q.ticket, 0) < n && TicketsMatch(q, n, tickets, back)
    ensures var t := FirstFree(q.ticket, 0);
            WellSized(Add(q, n, slave, i), n)
            && TicketsMatch(Add(q, n, slave, i), n, tickets[t := message], back[q.head := t])
  {
    var t := FirstFree(q.ticket, 0);
    var q', tickets', back' := Add(q, n, slave, i), tickets[t := message], back[q.head := t];
    assert t !in tickets by {
      assert t in tickets ==> LiveTicket(q, n, back, t);
    }
    forall u | u in tickets' ensures LiveTicket(q', n, back', u) {
      if u != t {
        assert LiveTicket(q, n, back, u);
      }
    }
    forall k: nat | LiveSlot(q', n, k) ensures back'[k] in tickets' && back'[k] < n && q'.ticket[back'[k]] == k {
      if k != q.head {
        assert LiveSlot(q, n, k);
      }
    }
  }

  lemma {:induction false} AddSlots(q: Queue, n: nat, slave: nat, i: nat, finishing: int)
    requires WellSized(q, n) && q.count < n && FirstFree(q.ticket, 0) < n && SlotsOk(q, n, finishing)
    ensures SlotsOk(Add(q, n, slave, i), n, finishing)
  {
    var q' := Add(q, n, slave, i);
    forall k: nat | InQueue(q', n, k) ensures SlotOk(q'.slots[k], k == finishing) {
      if k != q.head {
        assert InQueue(q, n, k);
      }
    }
  }

  lemma {:induction false} AddTold(q: Queue, n: nat, tickets: map<nat, nat>, back: seq<nat>, slave: nat, i: nat,
          content: seq<nat>, sent: set<nat>)
    requires WellSized(q, n) && q.count < n && FirstFree(q.ticket, 0) < n && TicketsMatch(q, n, tickets, back)
    requires i < |content| && TicketsTold(q, n, tickets, content, sent)
    ensures TicketsTold(Add(q, n, slave, i), n, tickets[FirstFree(q.ticket, 0) := content[i]], content, sent)
  {
    var t := FirstFree(q.ticket, 0);
    var q' := Add(q, n, slave, i);
    forall u | u in tickets[t := content[i]] && u < n && 0 <= q'.ticket[u] < n
      ensures Told(q'.slots[q'.ticket[u]], tickets[t := content[i]][u], content, sent)
    {
      if u != t {
        assert LiveTicket(q, n, back, u);
      }
    }
  }

  ghost predicate Adds(s: Sys, s': Sys, slave: nat, i: nat)
    requires Sized(s)
  {
    && i in s.held && s.q.count < s.n && FirstFree(s.q.ticket, 0) < s.n
    && s' == s.(q := Add(s.q, s.n, slave, i), held := s.held - {i},
                tickets := s.tickets[FirstFree(s.q.ticket, 0) := s.content[i]])
  }

  lemma {:induction false} AddMoves(s: Sys, x: Aux, s': Sys, slave: nat, i: nat)
    requires Inv(s, x) && Adds(s, s', slave, i)
    ensures i < s.n && Sized(s') && Moved(s, s', i, Queued(s.q.head))
  {
    assert Holds(s, Held, i);
    forall r: Place, j: nat ensures Holds(s', r, j) <==> if j == i then r == Queued(s.q.head) else Holds(s, r, j) {
      AddMovesAt(s, x.owner, s', slave, i, r, j);
    }
  }

  lemma {:induction false} AddMovesAt(s: Sys, owner: seq<Place>, s': Sys, slave: nat, i: nat, r: Place, j: nat)
    requires Sized(s) && Adds(s, s', slave, i) && Sized(s') && HandlerOk(s) && Conserved(s, owner)
    ensures Holds(s', r, j) <==> if j == i then r == Queued(s.q.head) else Holds(s, r, j)
  {
    assert Holds(s, Held, i);
    assert Holds(s, r, i) ==> r == Held;
    hide Conserved;
  }

  lemma {:induction false} AddKeeps(s: Sys, x: Aux, s': Sys, slave: nat, i: nat)
    requires Inv(s, x) && Adds(s, s', slave, i) && i < s.n
    requires s.pc.Check? && s.pc.rotated ==> s.q.count + 1 < s.n
    ensures Inv(s', Aux(x.owner[i := Queued(s.q.head)], x.back[s.q.head := FirstFree(s.q.ticket, 0)]))
  {
    AddMoves(s, x, s', slave, i);
    MovedConserves(s, s', i, Queued(s.q.head), x.owner);
    AddMatches(s.q, s.n, s.tickets, x.back, slave, i, s.content[i]);
    AddSlots(s.q, s.n, slave, i, Finishing(s.pc));
    AddTold(s.q, s.n, s.tickets, x.back, slave, i, s.content, s.sent);
    assert Holds(s, Held, i);
    forall j | 0 <= j < s.n && MaySend(s'.q, s'.pc, x.owner[i := Queued(s.q.head)][j]) ensures s.content[j] !in s.sent {
      if j != i {
        assert Holds(s, x.owner[j], j);
        assert MaySend(s.q, s.pc, x.owner[j]);
      } else {
        assert MaySend(s.q, s.pc, Held);
      }
    }
    hide Conserved, QueueInv;
  }

  // ----- Giving up a ticket -----

  ghost predicate GivesUp(s: Sys, s': Sys, t: nat)
    requires Sized(s)
  {
    && t < s.n && 0 <= s.q.ticket[t] < s.n
    && s' == s.(q := Release(s.q, s.n, t), tickets := s.tickets - {t})
  }

  lemma {:induction false} ReleaseMatches(q: Queue, n: nat, tickets: map<nat, nat>, back: seq<nat>, t: nat)
    requires WellSized(q, n) && TicketsMatch(q, n, tickets, back) && t in tickets
    ensures t < n && 0 <= q.ticket[t] < n && WellSized(Release(q, n, t), n)
    ensures TicketsMatch(Release(q, n, t), n, tickets - {t}, back)
  {
    assert LiveTicket(q, n, back, t);
    var q' := Release(q, n, t);
    forall u | u in tickets - {t} ensures LiveTicket(q', n, back, u) {
      assert LiveTicket(q, n, back, u);
    }
    forall k: nat | LiveSlot(q', n, k) ensures back[k] in tickets - {t} && back[k] < n && q'.ticket[back[k]] == k {
      assert LiveSlot(q, n, k);
    }
  }

  lemma {:induction false} ReleaseSlots(q: Queue, n: nat, tickets: map<nat, nat>, back: seq<nat>, t: nat,
          finishing: int, content: seq<nat>, sent: set<nat>)
    requires WellSized(q, n) && TicketsMatch(q, n, tickets, back) && t in tickets && t < n && 0 <= q.ticket[t] < n
    requires SlotsOk(q, n, finishing) && TicketsTold(q, n, tickets, content, sent)
    ensures SlotsOk(Release(q, n, t), n, finishing)
    ensures TicketsTold(Release(q, n, t), n, tickets - {t}, content, sent)
  {
    var q' := Release(q, n, t);
    assert LiveTicket(q, n, back, t);
    forall k: nat | InQueue(q', n, k) ensures SlotOk(q'.slots[k], k == finishing) {
      assert InQueue(q, n, k);
    }
    forall u | u in tickets - {t} && u < n && 0 <= q'.ticket[u] < n
      ensures Told(q'.slots[q'.ticket[u]], tickets[u], content, sent)
    {
      assert LiveTicket(q, n, back, u);
    }
  }

  lemma {:induction false} ReleaseHandler(s: Sys, s': Sys, back: seq<nat>, t: nat)
    requires Sized(s) && HandlerOk(s) && TicketsMatch(s.q, s.n, s.tickets, back) && t in s.tickets && GivesUp(s, s', t)
    ensures HandlerOk(s')
  {
    assert LiveTicket(s.q, s.n, back, t);
  }

  lemma {:induction false} ReleaseKeeps(s: Sys, x: Aux, s': Sys, t: nat)
    requires Inv(s, x) && t in s.tickets && GivesUp(s, s', t)
    ensures Inv(s', x)
  {
    hide Conserved, TicketsMatch, SlotsOk, TicketsTold, FreshMessages, BoxesOk, HandlerOk;
    ReleaseMatches(s.q, s.n, s.tickets, x.back, t);
    ReleaseSlots(s.q, s.n, s.tickets, x.back, t, Finishing(s.pc), s.content, s.sent);
    assert Stayed(s, s');
    StayedConserves(s, s', x.owner);
    ReleaseHandler(s, s', x.back, t);
  }

  // ----- The handler at the tail of the queue -----

  /** Changes the slot at the tail and nothing else of the queue. */
  ghost function AtTailSet(q: Queue, slot: Slot): Queue
    requires q.tail < |q.slots|
  {
    q.(slots := q.slots[q.tail := slot])
  }

  lemma {:induction false} TailSetMatches(q: Queue, n: nat, tickets: map<nat, nat>, back: seq<nat>, slot: Slot)
    requires WellSized(q, n) && TicketsMatch(q, n, tickets, back) && slot.remove == q.slots[q.tail].remove
    ensures TicketsMatch(AtTailSet(q, slot), n, tickets, back)
  {
    var q' := AtTailSet(q, slot);
    forall u | u in tickets ensures LiveTicket(q', n, back, u) {
      assert LiveTicket(q, n, back, u);
    }
    forall k: nat | LiveSlot(q', n, k) ensures back[k] in tickets && back[k] < n && q'.ticket[back[k]] == k {
      assert LiveSlot(q, n, k);
    }
  }

  lemma {:induction false} TailSetSlots(q: Queue, n: nat, slot: Slot, finishing: int, finishing': int)
    requires WellSized(q, n) && q.count > 0 && SlotsOk(q, n, finishing) && SlotOk(slot, finishing' == q.tail)
    requires finishing == finishing' || (finishing == -1 && finishing' == q.tail)
             || (finishing == q.tail && finishing' == -1)
    ensures SlotsOk(AtTailSet(q, slot), n, finishing')
  {
    var q' := AtTailSet(q, slot);
    forall k: nat | InQueue(q', n, k) ensures SlotOk(q'.slots[k], k == finishing') {
      assert InQueue(q, n, k);
    }
  }

  /** The slot at the tail still tells the truth to the ticket that stands for it. */
  lemma {:induction false} TailSetTold(q: Queue, n: nat, tickets: map<nat, nat>, back: seq<nat>, slot: Slot,
          content: seq<nat>, sent: set<nat>, sent': set<nat>)
    requires WellSized(q, n) && TicketsMatch(q, n, tickets, back) && TicketsTold(q, n, tickets, content, sent)
             && sent <= sent'
    requires forall m :: Told(q.slots[q.tail], m, content, sent) ==> Told(slot, m, content, sent')
    ensures TicketsTold(AtTailSet(q, slot), n, tickets, content, sent')
  {
    var q' := AtTailSet(q, slot);
    forall u | u in tickets && u < n && 0 <= q'.ticket[u] < n
      ensures Told(q'.slots[q'.ticket[u]], tickets[u], content, sent')
    {
      assert Told(q.slots[q.ticket[u]], tickets[u], content, sent);
    }
  }

  /** A slave has accepted the mailbox. */
  lemma {:induction false} SendKeeps(s: Sys, x: Aux, s': Sys)
    requires Inv(s, x) && s.pc.Looked? && (s.pc.state == Req || s.pc.state == Fail) && s.pc.mbx.Mbx?
    requires s' == s.(sent := s.sent + {s.content[s.pc.mbx.item]},
                      pc := MailboxSystem.Sent(s.pc.rem, s.pc.loc, s.pc.mbx.item))
    ensures Inv(s', x) && s.content[s.pc.mbx.item] !in s.sent
  {
    var i := s.pc.mbx.item;
    QueuedIsOwned(s, x, s.pc.loc);
    assert MaySend(s.q, s.pc, x.owner[i]);
    assert Stayed(s, s');
    StayedConserves(s, s', x.owner);
    assert s.q == AtTailSet(s.q, s.q.slots[s.q.tail]);
    TailSetTold(s.q, s.n, s.tickets, x.back, s.q.slots[s.q.tail], s.content, s.sent, s'.sent);
    assert Unsent(s', x.owner) by {
      forall j | 0 <= j < s.n && MaySend(s'.q, s'.pc, x.owner[j]) ensures s'.content[j] !in s'.sent {
        assert MaySend(s.q, s.pc, x.owner[j]);
      }
    }
    hide Conserved, TicketsTold;
  }

  /** The slot at the tail gets another state or loses its finished mailbox. */
  ghost predicate SetsTail(s: Sys, s': Sys, slot: Slot)
    requires Sized(s)
  {
    var was := s.q.slots[s.q.tail];
    && s' == s.(q := AtTailSet(s.q, slot), pc := s'.pc)
    && ( || (s.pc.Looked? && was.state != Done && slot == was.(state := Fail) && s'.pc == Turn(s.pc.rem, s.pc.loc))
         || (s.pc.Sent? && slot == was.(state := Done) && s'.pc == Marked(s.pc.rem, s.pc.loc, s.pc.item))
         || (s.pc.Returned? && slot == was.(mbx := Null) && s'.pc == Turn(s.pc.rem, s.pc.loc)))
  }

  lemma {:induction false} SetTailStays(s: Sys, s': Sys, slot: Slot)
    requires Sized(s) && Sized(s') && HandlerOk(s) && SetsTail(s, s', slot)
    ensures Stayed(s, s')
  {
    forall r: Place, j: nat ensures Holds(s', r, j) <==> Holds(s, r, j) {
    }
  }

  lemma {:induction false} SetTailQueue(s: Sys, x: Aux, s': Sys, slot: Slot)
    requires Inv(s, x) && SetsTail(s, s', slot) && Sized(s')
    ensures QueueInv(s', x.back)
  {
    var was := s.q.slots[s.q.tail];
    assert InQueue(s.q, s.n, s.q.tail);
    assert SlotOk(was, s.q.tail == Finishing(s.pc));
    TailSetMatches(s.q, s.n, s.tickets, x.back, slot);
    TailSetSlots(s.q, s.n, slot, Finishing(s.pc), Finishing(s'.pc));
    assert forall m :: Told(was, m, s.content, s.sent) ==> Told(slot, m, s.content, s.sent);
    TailSetTold(s.q, s.n, s.tickets, x.back, slot, s.content, s.sent, s.sent);
  }

  lemma {:induction false} SetTailKeeps(s: Sys, x: Aux, s': Sys, slot: Slot)
    requires Inv(s, x) && SetsTail(s, s', slot)
    ensures Inv(s', x)
  {
    SetTailStays(s, s', slot);
    StayedConserves(s, s', x.owner);
    SetTailQueue(s, x, s', slot);
    assert Unsent(s', x.owner) by {
      forall j | 0 <= j < s.n && MaySend(s'.q, s'.pc, x.owner[j]) ensures s.content[j] !in s.sent {
        assert MaySend(s.q, s.pc, x.owner[j]);
      }
    }
    hide Conserved, QueueInv, Unsent;
  }

  // ----- Turning the ring -----

  /** The tail slot goes to the head under the same ticket. */
  ghost predicate Turns(q: Queue, n: nat, q': Queue, t: nat)
    requires WellSized(q, n)
  {
    && q.head != q.tail && t < n && q.ticket[t] == q.tail
    && q' == q.(ticket := q.ticket[t := q.head], slots := q.slots[q.head := q.slots[q.tail]],
                head := Next(q.head, n), tail := Next(q.tail, n))
  }

  lemma {:induction false} TurnMatches(q: Queue, n: nat, q': Queue, t: nat, tickets: map<nat, nat>, back: seq<nat>)
    requires WellSized(q, n) && TicketsMatch(q, n, tickets, back) && Turns(q, n, q', t) && q.count > 0
    ensures WellSized(q', n) && TicketsMatch(q', n, tickets, back[q.head := t])
  {
    var back' := back[q.head := t];
    assert LiveTicket(q, n, back, t);
    forall u | u in tickets ensures LiveTicket(q', n, back', u) {
      assert LiveTicket(q, n, back, u);
    }
    forall k: nat | LiveSlot(q', n, k) ensures back'[k] in tickets && back'[k] < n && q'.ticket[back'[k]] == k {
      if k != q.head {
        assert LiveSlot(q, n, k);
      }
    }
  }

  lemma {:induction false} TurnSlots(q: Queue, n: nat, q': Queue, t: nat, tickets: map<nat, nat>, back: seq<nat>,
          content: seq<nat>, sent: set<nat>)
    requires WellSized(q, n) && TicketsMatch(q, n, tickets, back) && Turns(q, n, q', t) && q.count > 0
    requires SlotsOk(q, n, -1) && TicketsTold(q, n, tickets, content, sent)
    ensures WellSized(q', n) && SlotsOk(q', n, -1) && TicketsTold(q', n, tickets, content, sent)
  {
    forall k: nat | InQueue(q', n, k) ensures SlotOk(q'.slots[k], k == -1) {
      assert InQueue(q, n, if k == q.head then q.tail else k);
    }
    forall u | u in tickets && u < n && 0 <= q'.ticket[u] < n
      ensures Told(q'.slots[q'.ticket[u]], tickets[u], content, sent)
    {
      assert LiveTicket(q, n, back, u) && LiveTicket(q, n, back, t);
    }
  }

  lemma {:induction false} TurnHolds(q: Queue, n: nat, q': Queue, t: nat, k: nat, j: nat)
    requires WellSized(q, n) && Turns(q, n, q', t) && q.count > 0 && WellSized(q', n)
    ensures InSlot(q', n, -1, k, j) <==>
            if k == q.head then InSlot(q, n, -1, q.tail, j) else k != q.tail && InSlot(q, n, -1, k, j)
  {
  }

  lemma {:induction false} TurnMoves(s: Sys, x: Aux, s': Sys, t: nat)
    requires Inv(s, x) && s.pc.Turn? && Turns(s.q, s.n, s'.q, t)
    requires s' == s.(q := s'.q, pc := Check(s.pc.rem, s.pc.loc, true))
    ensures Sized(s')
    ensures var mbx := s.q.slots[s.q.tail].mbx;
            if mbx.Mbx? then Holds(s, Queued(s.q.tail), mbx.item) && Moved(s, s', mbx.item, Queued(s.q.head))
              else Stayed(s, s')
  {
    var mbx := s.q.slots[s.q.tail].mbx;
    if mbx.Mbx? {
      assert Holds(s, Queued(s.q.tail), mbx.item);
      forall r: Place, j: nat
        ensures Holds(s', r, j) <==> if j == mbx.item then r == Queued(s.q.head) else Holds(s, r, j)
      {
        if r.Queued? {
          TurnHolds(s.q, s.n, s'.q, t, r.slot, j);
        }
        assert Holds(s, r, mbx.item) ==> r == Queued(s.q.tail);
      }
    } else {
      forall r: Place, j: nat ensures Holds(s', r, j) <==> Holds(s, r, j) {
        if r.Queued? {
          TurnHolds(s.q, s.n, s'.q, t, r.slot, j);
        }
      }
    }
  }

  ghost function TurnAux(s: Sys, x: Aux, t: nat): Aux
    requires Sized(s) && |x.owner| == s.n && |x.back| == s.n
  {
    var mbx := s.q.slots[s.q.tail].mbx;
    Aux(if mbx.Mbx? then x.owner[mbx.item := Queued(s.q.head)] else x.owner, x.back[s.q.head := t])
  }

  lemma {:induction false} TurnKeeps(s: Sys, x: Aux, s': Sys, t: nat)
    requires Inv(s, x) && s.pc.Turn? && Turns(s.q, s.n, s'.q, t)
    requires s' == s.(q := s'.q, pc := Check(s.pc.rem, s.pc.loc, true))
    ensures Inv(s', TurnAux(s, x, t))
  {
    var mbx := s.q.slots[s.q.tail].mbx;
    var x' := TurnAux(s, x, t);
    TurnMoves(s, x, s', t);
    if mbx.Mbx? {
      MovedConserves(s, s', mbx.item, Queued(s.q.head), x.owner);
    } else {
      StayedConserves(s, s', x.owner);
    }
    TurnMatches(s.q, s.n, s'.q, t, s.tickets, x.back);
    TurnSlots(s.q, s.n, s'.q, t, s.tickets, x.back, s.content, s.sent);
    assert LiveTicket(s.q, s.n, x.back, t);
    assert Unsent(s', x'.owner) by {
      forall j | 0 <= j < s.n && MaySend(s'.q, s'.pc, x'.owner[j]) ensures s.content[j] !in s.sent {
        assert Holds(s, x.owner[j], j);
        assert MaySend(s.q, s.pc, x.owner[j]);
      }
    }
    hide Conserved, QueueInv, Unsent;
  }

  // ----- Removing the tail slot -----

  ghost predicate Drops(s: Sys, s': Sys)
    requires Sized(s)
  {
    && s.pc.Remove? && s.q.count > 0
    && s' == s.(q := Drop(s.q, s.n, s.q.tail),
                pc := match s.q.slots[s.q.tail].mbx case Mbx(i) => Give(s.pc.rem, i) case Null => Loop(s.pc.rem))
  }

  lemma {:induction false} DropMatches(q: Queue, n: nat, tickets: map<nat, nat>, back: seq<nat>, content: seq<nat>,
          sent: set<nat>)
    requires WellSized(q, n) && q.count > 0 && TicketsMatch(q, n, tickets, back) && q.slots[q.tail].remove
    requires SlotsOk(q, n, -1) && TicketsTold(q, n, tickets, content, sent)
    ensures var q' := Drop(q, n, q.tail);
            && WellSized(q', n) && TicketsMatch(q', n, tickets, back) && SlotsOk(q', n, -1)
            && TicketsTold(q', n, tickets, content, sent)
  {
    var q' := Drop(q, n, q.tail);
    forall u | u in tickets ensures LiveTicket(q', n, back, u) {
      assert LiveTicket(q, n, back, u);
    }
    forall k: nat | LiveSlot(q', n, k) ensures back[k] in tickets && back[k] < n && q'.ticket[back[k]] == k {
      assert LiveSlot(q, n, k);
    }
    forall k: nat | InQueue(q', n, k) ensures SlotOk(q'.slots[k], k == -1) {
      assert InQueue(q, n, k);
    }
    forall u | u in tickets && u < n && 0 <= q'.ticket[u] < n
      ensures Told(q'.slots[q'.ticket[u]], tickets[u], content, sent)
    {
      assert LiveTicket(q, n, back, u);
    }
  }

  lemma {:induction false} DropHolds(q: Queue, n: nat, k: nat, j: nat)
    requires WellSized(q, n) && q.count > 0
    ensures var q' := Drop(q, n, q.tail);
            WellSized(q', n) && (InSlot(q', n, -1, k, j) <==> k != q.tail && InSlot(q, n, -1, k, j))
  {
  }

  lemma {:induction false} DropMoves(s: Sys, x: Aux, s': Sys)
    requires Inv(s, x) && Drops(s, s')
    ensures Sized(s')
    ensures var mbx := s.q.slots[s.q.tail].mbx;
            if mbx.Mbx? then Holds(s, Queued(s.q.tail), mbx.item) && Moved(s, s', mbx.item, InHandler)
              else Stayed(s, s')
  {
    var mbx := s.q.slots[s.q.tail].mbx;
    if mbx.Mbx? {
      assert Holds(s, Queued(s.q.tail), mbx.item);
      forall r: Place, j: nat ensures Holds(s', r, j) <==> if j == mbx.item then r == InHandler else Holds(s, r, j) {
        if r.Queued? {
          DropHolds(s.q, s.n, r.slot, j);
        }
        assert Holds(s, r, mbx.item) ==> r == Queued(s.q.tail);
      }
    } else {
      forall r: Place, j: nat ensures Holds(s', r, j) <==> Holds(s, r, j) {
        if r.Queued? {
          DropHolds(s.q, s.n, r.slot, j);
        }
      }
    }
  }

  ghost function DropAux(s: Sys, x: Aux): Aux
    requires Sized(s) && |x.owner| == s.n
  {
    var mbx := s.q.slots[s.q.tail].mbx;
    if mbx.Mbx? then x.(owner := x.owner[mbx.item := InHandler]) else x
  }

  lemma {:induction false} DropKeeps(s: Sys, x: Aux, s': Sys)
    requires Inv(s, x) && Drops(s, s')
    ensures Inv(s', DropAux(s, x))
  {
    var mbx := s.q.slots[s.q.tail].mbx;
    var x' := DropAux(s, x);
    DropMoves(s, x, s');
    if mbx.Mbx? {
      MovedConserves(s, s', mbx.item, InHandler, x.owner);
    } else {
      StayedConserves(s, s', x.owner);
    }
    DropMatches(s.q, s.n, s.tickets, x.back, s.content, s.sent);
    assert Unsent(s', x'.owner) by {
      forall j | 0 <= j < s.n && MaySend(s'.q, s'.pc, x'.owner[j]) ensures s.content[j] !in s.sent {
        assert Holds(s, x.owner[j], j);
        assert MaySend(s.q, s.pc, x.owner[j]);
      }
    }
    hide Conserved, QueueInv, Unsent;
  }

  // ----- Steps of the handler that only look -----

  ghost predicate Looks(s: Sys, s': Sys)
    requires Sized(s)
  {
    && s' == s.(pc := s'.pc)
    && ( || (s.pc.Idle? && s'.pc == Loop(s.q.count))
         || (s.pc.Loop? && s'.pc == Idle)
         || (s.pc.Loop? && s.pc.rem > 0
             && s'.pc == Looked(s.pc.rem - 1, s.q.tail, s.q.slots[s.q.tail].state, s.q.slots[s.q.tail].mbx))
         || (s.pc.Looked? && s'.pc == Turn(s.pc.rem, s.pc.loc))
         || (s.pc.Turn? && s'.pc == Check(s.pc.rem, s.pc.loc, false))
         || (s.pc.Check? && !s.q.slots[s.pc.loc].remove && s'.pc == Loop(s.pc.rem))
         || (s.pc.Check? && s.q.slots[s.pc.loc].remove && s'.pc == Remove(s.pc.rem, s.pc.loc)))
  }

  lemma {:induction false} LookKeeps(s: Sys, x: Aux, s': Sys)
    requires Inv(s, x) && Looks(s, s')
    ensures Inv(s', x)
  {
    forall r: Place, j: nat ensures Holds(s', r, j) <==> Holds(s, r, j) {
    }
    StayedConserves(s, s', x.owner);
    assert Unsent(s', x.owner) by {
      forall j | 0 <= j < s.n && MaySend(s'.q, s'.pc, x.owner[j]) ensures s.content[j] !in s.sent {
        assert MaySend(s.q, s.pc, x.owner[j]);
      }
    }
    hide Conserved, QueueInv, Unsent;
  }

  // ----- The protocol inputs -----

  /** A step that changes one input, the handler's place and what clients hold, and nothing else. */
  ghost predicate ChangesBox(s: Sys, s': Sys, b: nat, box: Box)
  {
    b < |s.boxes| && s' == s.(boxes := s.boxes[b := box], held := s'.held, pc := s'.pc)
  }

  /** A client copies the pointer of a full input, or the handler raises the flag of one. */
  ghost predicate Passes(s: Sys, s': Sys, b: nat, i: nat, p: Place)
  {
    && b < |s.boxes|
    && ( || (ChangesBox(s, s', b, s.boxes[b].(reader := Copied)) && InBox(s.boxes, b, i)
             && p == Held && s'.held == s.held + {i} && s'.pc == s.pc)
         || (ChangesBox(s, s', b, s.boxes[b].(full := true)) && s.pc == Stored(b, i)
             && p == Boxed(b) && s'.held == s.held && s'.pc == Idle))
  }

  lemma {:induction false} PassMoves(s: Sys, x: Aux, s': Sys, b: nat, i: nat, p: Place)
    requires Inv(s, x) && Passes(s, s', b, i, p)
    ensures i < s.n && Sized(s') && Moved(s, s', i, p) && MaySend(s.q, s.pc, x.owner[i])
  {
    var from := if p == Held then Boxed(b) else InHandler;
    assert Holds(s, from, i);
    forall r: Place, j: nat ensures Holds(s', r, j) <==> if j == i then r == p else Holds(s, r, j) {
      assert Holds(s, r, i) ==> r == from;
    }
  }

  lemma {:induction false} PassKeeps(s: Sys, x: Aux, s': Sys, b: nat, i: nat, p: Place)
    requires Inv(s, x) && Passes(s, s', b, i, p) && i < s.n
    ensures Inv(s', Aux(x.owner[i := p], x.back))
  {
    PassMoves(s, x, s', b, i, p);
    MovedConserves(s, s', i, p, x.owner);
    assert Unsent(s', x.owner[i := p]) by {
      forall j | 0 <= j < s.n && MaySend(s'.q, s'.pc, x.owner[i := p][j]) ensures s.content[j] !in s.sent {
        assert MaySend(s.q, s.pc, x.owner[j]);
      }
    }
    hide Conserved, QueueInv, Unsent;
  }

  /** A client resets the pointer it has copied or clears the flag, or the handler stores a
      received mailbox in an input whose flag is not raised yet. */
  ghost predicate Prepares(s: Sys, s': Sys, b: nat)
  {
    && b < |s.boxes| && s'.held == s.held
    && ( || (s.boxes[b].reader == Copied && s'.pc == s.pc
             && ChangesBox(s, s', b, s.boxes[b].(ptr := Ready, reader := Cleared)))
         || (s.boxes[b].reader == Cleared && s'.pc == s.pc
             && ChangesBox(s, s', b, s.boxes[b].(full := false, reader := Away)))
         || (s.pc.Fetched? && !s.boxes[b].full && s'.pc == Stored(b, s.pc.item)
             && ChangesBox(s, s', b, s.boxes[b].(ptr := Holding(s.pc.item)))))
  }

  lemma {:induction false} PrepareKeeps(s: Sys, x: Aux, s': Sys, b: nat)
    requires Inv(s, x) && Prepares(s, s', b)
    ensures Inv(s', x)
  {
    assert BoxOk(s.boxes[b]);
    forall r: Place, j: nat ensures Holds(s', r, j) <==> Holds(s, r, j) {
    }
    StayedConserves(s, s', x.owner);
    assert Unsent(s', x.owner) by {
      forall j | 0 <= j < s.n && MaySend(s'.q, s'.pc, x.owner[j]) ensures s.content[j] !in s.sent {
        assert MaySend(s.q, s.pc, x.owner[j]);
      }
    }
    hide Conserved, QueueInv, Unsent;
  }

  // ----- All steps -----

  /** The one step that is not safe: adding the mailbox that fills the queue while the handler has
      rotated a slot and has not yet read the removal mark of the slot it came from. */
  ghost predicate Guarded(s: Sys, a: Action)
    requires Sized(s)
  {
    a.ClientAdd? && s.pc.Check? && s.pc.rotated ==> s.q.count + 1 < s.n || s.q.count == s.n
  }

  lemma {:induction false} ReturnStep(s: Sys, x: Aux, a: Action, i: nat) returns (x': Aux)
    requires Inv(s, x) && Enabled(s, a)
    requires (a == ClientDrop(i)) || (a == OutPut && s.pc.item == i) || (a == OutGive && s.pc.item == i)
             || (a == InRefuse && s.pc.item == i)
    ensures Inv(Apply(s, a), x')
  {
    var from := match a case ClientDrop(_) => Held case OutPut => Queued(s.pc.loc) case _ => InHandler;
    assert Holds(s, from, i);
    RoomInPool(s, x.owner, i);
    x' := Aux(x.owner[i := Free(s.pool.head)], x.back);
    assert Returns(s, Apply(s, a), i);
    ReturnKeeps(s, x, Apply(s, a), i);
  }

  lemma {:induction false} AddStep(s: Sys, x: Aux, slave: nat, i: nat) returns (x': Aux)
    requires Inv(s, x) && i in s.held && Guarded(s, ClientAdd(slave, i))
    ensures Inv(Apply(s, ClientAdd(slave, i)), x')
  {
    x' := x;
    if s.q.count < s.n {
      RoomInTickets(s.q, s.n, s.tickets, x.back);
      x' := Aux(x.owner[i := Queued(s.q.head)], x.back[s.q.head := FirstFree(s.q.ticket, 0)]);
      AddKeeps(s, x, Apply(s, ClientAdd(slave, i)), slave, i);
    }
  }

  lemma {:induction false} ReleaseStep(s: Sys, x: Aux, t: nat, done: bool)
    requires Inv(s, x) && t in s.tickets
    ensures Inv(ApplyRelease(s, t, done), x)
  {
    assert LiveTicket(s.q, s.n, x.back, t);
    if Released(s, t, done) {
      ReleaseKeeps(s, x, ApplyRelease(s, t, done), t);
    }
  }

  lemma {:induction false} TicketStep(s: Sys, x: Aux, a: Action)
    requires Inv(s, x) && Enabled(s, a) && (a.ClientDone? || a.ClientExpire?)
    ensures Inv(Apply(s, a), x)
  {
    hide Inv;
    InvSized(s, x);
    ReleaseStep(s, x, a.ticket, a.ClientDone?);
  }

  lemma {:induction false} FillStep(s: Sys, x: Aux, a: Action) returns (x': Aux)
    requires Inv(s, x) && Enabled(s, a) && (a.ClientGet? || a.InFetch?)
    ensures Inv(Apply(s, a), x')
  {
    hide Inv;
    InvSized(s, x);
    var p := if a.ClientGet? then Held else InHandler;
    x' := Aux(x.owner[s.pool.list[s.pool.tail] := p], x.back);
    FillKeeps(s, x, p, Apply(s, a));
  }

  lemma {:induction false} BoxStep(s: Sys, x: Aux, a: Action) returns (x': Aux)
    requires Inv(s, x) && Enabled(s, a)
    requires a.ClientCopy? || a.ClientClear? || a.ClientEnd? || a.InStore? || a.InFull?
    ensures Inv(Apply(s, a), x')
  {
    var s' := Apply(s, a);
    match a
    case ClientCopy(b) =>
      assert BoxOk(s.boxes[b]);
      var i := s.boxes[b].ptr.item;
      assert Passes(s, s', b, i, Held);
      PassMoves(s, x, s', b, i, Held);
      x' := Aux(x.owner[i := Held], x.back);
      PassKeeps(s, x, s', b, i, Held);
    case InFull =>
      assert Passes(s, s', s.pc.box, s.pc.item, Boxed(s.pc.box));
      PassMoves(s, x, s', s.pc.box, s.pc.item, Boxed(s.pc.box));
      x' := Aux(x.owner[s.pc.item := Boxed(s.pc.box)], x.back);
      PassKeeps(s, x, s', s.pc.box, s.pc.item, Boxed(s.pc.box));
    case ClientClear(b) =>
      x' := x;
      PrepareKeeps(s, x, s', b);
    case ClientEnd(b) =>
      x' := x;
      PrepareKeeps(s, x, s', b);
    case InStore(b) =>
      x' := x;
      PrepareKeeps(s, x, s', b);
  }

  /** The steps of the transmit handler at the tail. */
  lemma {:induction false} TailStep(s: Sys, x: Aux, a: Action) returns (x': Aux)
    requires Inv(s, x) && Enabled(s, a)
    requires a.OutSend? || a.OutFail? || a.OutMark? || a.OutClear? || a.OutRotate? || a.OutRemove?
    ensures Inv(Apply(s, a), x')
  {
    var s' := Apply(s, a);
    x' := x;
    match a
    case OutSend =>
      QueuedIsOwned(s, x, s.pc.loc);
      SendKeeps(s, x, s');
    case OutFail => SetTailKeeps(s, x, s', s.q.slots[s.q.tail].(state := Fail));
    case OutMark => SetTailKeeps(s, x, s', s.q.slots[s.q.tail].(state := Done));
    case OutClear => SetTailKeeps(s, x, s', s.q.slots[s.q.tail].(mbx := Null));
    case OutRotate =>
      if Rotates(s.q, s.n, s.pc.loc) {
        x' := TurnAux(s, x, FindTicket(s.q.ticket, s.pc.loc, 0));
        TurnKeeps(s, x, s', FindTicket(s.q.ticket, s.pc.loc, 0));
      } else {
        LookKeeps(s, x, s');
      }
    case OutRemove =>
      x' := DropAux(s, x);
      DropKeeps(s, x, s');
  }

  lemma {:induction false} LookStep(s: Sys, x: Aux, a: Action)
    requires Inv(s, x) && Enabled(s, a)
    requires a.OutStart? || a.OutExit? || a.OutLook? || a.OutSkip? || a.OutCheck?
    ensures Inv(Apply(s, a), x)
  {
    if a.OutSkip? {
      assert InQueue(s.q, s.n, s.pc.loc);
    }
    LookKeeps(s, x, Apply(s, a));
  }

  lemma {:induction false} InvSized(s: Sys, x: Aux)
    requires Inv(s, x)
    ensures Sized(s) && |x.owner| == s.n
  {
  }

  /** Every guarded step keeps the invariant. */
  lemma {:induction false} StepKeeps(s: Sys, x: Aux, a: Action) returns (x': Aux)
    requires Inv(s, x) && Enabled(s, a) && Guarded(s, a)
    ensures Inv(Apply(s, a), x')
  {
    hide Inv, Apply, Guarded, Sized;
    x' := x;
    InvSized(s, x);
    match a {
      case ClientGet => x' := FillStep(s, x, a);
      case InFetch => x' := FillStep(s, x, a);
      case ClientDrop(i) => x' := ReturnStep(s, x, a, i);
      case OutPut => x' := ReturnStep(s, x, a, s.pc.item);
      case OutGive => x' := ReturnStep(s, x, a, s.pc.item);
      case InRefuse => x' := ReturnStep(s, x, a, s.pc.item);
      case ClientAdd(slave, i) => x' := AddStep(s, x, slave, i);
      case ClientDone(_) => TicketStep(s, x, a);
      case ClientExpire(_) => TicketStep(s, x, a);
      case ClientCopy(_) => x' := BoxStep(s, x, a);
      case ClientClear(_) => x' := BoxStep(s, x, a);
      case ClientEnd(_) => x' := BoxStep(s, x, a);
      case InStore(_) => x' := BoxStep(s, x, a);
      case InFull => x' := BoxStep(s, x, a);
      case OutStart => LookStep(s, x, a);
      case OutExit => LookStep(s, x, a);
      case OutLook => LookStep(s, x, a);
      case OutSkip => LookStep(s, x, a);
      case OutCheck => LookStep(s, x, a);
      case _ => x' := TailStep(s, x, a);
    }
  }
}
