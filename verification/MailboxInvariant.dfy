/** What every step of the mailbox system keeps. */
module MailboxInvariant {
  import opened Ring
  import opened MailboxQueue
  import opened MailboxSystem

  /** The places a mailbox of the pool can be in. */
  datatype Place = Free(entry: nat) | Held | Queued(slot: nat) | Boxed(box: nat) | InHandler

  ghost predicate InQueue(q: Queue, n: nat, k: nat)
  {
    InWindow(q.tail, q.count, n, k)
  }

  /** The slot of a mailbox the handler has just dropped to the pool, -1 if there is none: for one
      step the slot still has the pointer, but no longer the mailbox. */
  ghost function Emptied(pc: Pc): int
  {
    if pc.Returned? then pc.loc else -1
  }

  /** The slot whose mailbox is sent and being cleared, -1 if there is none. */
  ghost function Finishing(pc: Pc): int
  {
    if pc.Marked? || pc.Returned? then pc.loc else -1
  }

  /** The slot whose mailbox is sent but not yet marked so, -1 if there is none. */
  ghost function Sending(pc: Pc): int
  {
    if pc.Sent? then pc.loc else -1
  }

  /** Mailbox `i` is in place `p`. */
  ghost predicate Holds(s: Sys, p: Place, i: nat)
    requires Sized(s)
  {
    match p
    case Free(k) => InPool(s.pool, s.n, k, i)
    case Held => i in s.held
    case Queued(k) => InSlot(s.q, s.n, Emptied(s.pc), k, i)
    case Boxed(b) => InBox(s.boxes, b, i)
    case InHandler => PcHolds(s.pc, i)
  }

  ghost predicate InPool(pool: Pool, n: nat, k: nat, i: nat)
    requires PoolSized(pool, n)
  {
    InWindow(pool.tail, pool.count, n, k) && pool.list[k] == i
  }

  ghost predicate InSlot(q: Queue, n: nat, emptied: int, k: nat, i: nat)
    requires WellSized(q, n)
  {
    InQueue(q, n, k) && q.slots[k].mbx == Mbx(i) && k != emptied
  }

  ghost predicate InBox(boxes: seq<Box>, b: nat, i: nat)
  {
    b < |boxes| && boxes[b].full && boxes[b].reader == Away && boxes[b].ptr == Holding(i)
  }

  ghost predicate PcHolds(pc: Pc, i: nat)
  {
    match pc
    case Fetched(j) => i == j
    case Stored(_, j) => i == j
    case Give(_, j) => i == j
    case _ => false
  }

  /** Auxiliary: where each mailbox is, and which ticket stands for each slot. */
  datatype Aux = Aux(owner: seq<Place>, back: seq<nat>)

  /** Every mailbox is in exactly one place, and nothing else is in any place. */
  ghost predicate Conserved(s: Sys, owner: seq<Place>)
    requires Sized(s)
    ensures Conserved(s, owner) ==> |owner| == s.n
  {
    && |owner| == s.n
    && (forall i :: 0 <= i < s.n ==> Holds(s, owner[i], i))
    && (forall p: Place, i: nat :: Holds(s, p, i) ==> i < s.n && owner[i] == p)
  }

  ghost predicate LiveSlot(q: Queue, n: nat, k: nat)
    requires WellSized(q, n)
  {
    InQueue(q, n, k) && !q.slots[k].remove
  }

  ghost predicate LiveTicket(q: Queue, n: nat, back: seq<nat>, t: nat)
    requires WellSized(q, n) && |back| == n
  {
    t < n && q.ticket[t] >= 0 && LiveSlot(q, n, q.ticket[t]) && back[q.ticket[t]] == t
  }

  /** The tickets clients hold and the slots that are not marked for removal stand for each other. */
  ghost predicate TicketsMatch(q: Queue, n: nat, tickets: map<nat, nat>, back: seq<nat>)
    requires WellSized(q, n)
  {
    && |back| == n
    && (forall t :: t in tickets ==> LiveTicket(q, n, back, t))
    && (forall t :: 0 <= t < n && q.ticket[t] >= 0 ==> t in tickets)
    && (forall k: nat :: LiveSlot(q, n, k) ==> back[k] in tickets && back[k] < n && q.ticket[back[k]] == k)
  }

  ghost predicate SlotOk(slot: Slot, finishing: bool)
  {
    && slot.state != None
    && (slot.state != Done ==> slot.mbx.Mbx?)
    && (slot.state == Done ==> slot.mbx.Null? || finishing)
  }

  ghost predicate SlotsOk(q: Queue, n: nat, finishing: int)
    requires WellSized(q, n)
  {
    forall k: nat :: InQueue(q, n, k) ==> SlotOk(q.slots[k], k == finishing)
  }

  ghost predicate BoxesOk(boxes: seq<Box>)
  {
    forall b :: 0 <= b < |boxes| ==> BoxOk(boxes[b])
  }

  ghost predicate BoxOk(box: Box)
  {
    match box.reader
    case Away => box.full ==> box.ptr.Holding?
    case Copied => box.full
    case Cleared => box.full
  }

  ghost predicate FreshMessages(content: seq<nat>, nextmsg: nat, sent: set<nat>)
  {
    && (forall i :: 0 <= i < |content| ==> content[i] < nextmsg)
    && (forall i, j :: 0 <= i < j < |content| ==> content[i] != content[j])
    && (forall m :: m in sent ==> m < nextmsg)
  }

  /** A ticket stands for the very message it was issued for, and if its slot says the message
      was sent, it was. */
  ghost predicate Told(slot: Slot, message: nat, content: seq<nat>, sent: set<nat>)
  {
    if slot.state == Done then message in sent
    else slot.mbx.Mbx? && slot.mbx.item < |content| && content[slot.mbx.item] == message
  }

  ghost predicate TicketsTold(q: Queue, n: nat, tickets: map<nat, nat>, content: seq<nat>, sent: set<nat>)
    requires WellSized(q, n)
  {
    forall t :: t in tickets && t < n && 0 <= q.ticket[t] < n ==> Told(q.slots[q.ticket[t]], tickets[t], content, sent)
  }

  /** A mailbox that can still be sent has not been sent. */
  ghost predicate Unsent(s: Sys, owner: seq<Place>)
    requires Sized(s) && |owner| == s.n
  {
    forall i :: 0 <= i < s.n && MaySend(s.q, s.pc, owner[i]) ==> s.content[i] !in s.sent
  }

  ghost predicate MaySend(q: Queue, pc: Pc, p: Place)
  {
    match p
    case Free(_) => false
    case Held => true
    case Queued(k) => k < |q.slots| && q.slots[k].state != Done && k != Sending(pc)
    case Boxed(_) => true
    case InHandler => !pc.Give?
  }

  /** While the handler works on a slot the slot is the tail of the ring, except that between a
      rotation and the next look at its removal mark the slot is the unused one behind the tail. */
  ghost predicate HandlerOk(s: Sys)
    requires Sized(s)
  {
    match s.pc
    case Loop(rem) => rem <= s.q.count
    case Looked(rem, loc, state, mbx) =>
      AtTail(s.q, rem, loc) && s.q.slots[loc].state == state && s.q.slots[loc].mbx == mbx
    case Sent(rem, loc, i) =>
      AtTail(s.q, rem, loc) && s.q.slots[loc].state != Done && s.q.slots[loc].mbx == Mbx(i) && s.content[i] in s.sent
    case Marked(rem, loc, i) => AtTail(s.q, rem, loc) && s.q.slots[loc].state == Done && s.q.slots[loc].mbx == Mbx(i)
    case Returned(rem, loc) => AtTail(s.q, rem, loc) && s.q.slots[loc].state == Done
    case Turn(rem, loc) => AtTail(s.q, rem, loc)
    case Check(rem, loc, rotated) => if rotated then BehindTail(s.q, s.n, rem, loc) else AtTail(s.q, rem, loc)
    case Remove(rem, loc) => AtTail(s.q, rem, loc) && s.q.slots[loc].remove
    case Give(rem, _) => rem <= s.q.count
    case Stored(b, i) => s.boxes[b].ptr == Holding(i) && !s.boxes[b].full && s.boxes[b].reader == Away
    case _ => true
  }

  ghost predicate AtTail(q: Queue, rem: nat, loc: nat)
  {
    rem < q.count && loc == q.tail
  }

  ghost predicate BehindTail(q: Queue, n: nat, rem: nat, loc: nat)
    requires WellSized(q, n) && loc < n
  {
    rem < q.count < n && q.tail == Next(loc, n) && !q.slots[loc].remove
  }

  ghost predicate QueueInv(s: Sys, back: seq<nat>)
    requires Sized(s)
  {
    && TicketsMatch(s.q, s.n, s.tickets, back) && SlotsOk(s.q, s.n, Finishing(s.pc))
    && TicketsTold(s.q, s.n, s.tickets, s.content, s.sent)
  }

  ghost predicate Inv(s: Sys, x: Aux)
  {
    && Sized(s) && !s.fault && Conserved(s, x.owner) && QueueInv(s, x.back) && BoxesOk(s.boxes)
    && FreshMessages(s.content, s.nextmsg, s.sent) && Unsent(s, x.owner) && HandlerOk(s)
  }

  /** One mailbox went to a new place, all others stayed. */
  ghost predicate Moved(s: Sys, s': Sys, i: nat, p: Place)
    requires Sized(s) && Sized(s')
  {
    forall r: Place, j: nat :: Holds(s', r, j) <==> if j == i then r == p else Holds(s, r, j)
  }

  ghost predicate Stayed(s: Sys, s': Sys)
    requires Sized(s) && Sized(s')
  {
    forall r: Place, j: nat :: Holds(s', r, j) <==> Holds(s, r, j)
  }

  lemma {:induction false} MovedConserves(s: Sys, s': Sys, i: nat, p: Place, owner: seq<Place>)
    requires Sized(s) && Sized(s') && s'.n == s.n && i < s.n && Conserved(s, owner) && Moved(s, s', i, p)
    ensures Conserved(s', owner[i := p])
  {
    hide Holds, Sized;
  }

  lemma {:induction false} StayedConserves(s: Sys, s': Sys, owner: seq<Place>)
    requires Sized(s) && Sized(s') && s'.n == s.n && Conserved(s, owner) && Stayed(s, s')
    ensures Conserved(s', owner)
  {
    hide Holds, Sized;
  }

  /** A pool is never given back more than it has: a mailbox that is not free leaves room for itself. */
  lemma {:induction false} RoomInPool(s: Sys, owner: seq<Place>, i: nat)
    requires Sized(s) && Conserved(s, owner) && i < s.n && !owner[i].Free?
    ensures s.pool.count < s.n
  {
    var free := seq(s.pool.count, j requires 0 <= j < s.pool.count => s.pool.list[At(s.pool.tail, j, s.n)]);
    forall j | 0 <= j < |free| ensures free[j] < s.n && owner[free[j]] == Free(At(s.pool.tail, j, s.n)) {
      assert Holds(s, Free(At(s.pool.tail, j, s.n)), free[j]);
    }
    Pigeonhole(free + [i], s.n);
  }

  /** A queue that is not full has a free ticket. */
  lemma {:induction false} RoomInTickets(q: Queue, n: nat, tickets: map<nat, nat>, back: seq<nat>)
    requires WellSized(q, n) && TicketsMatch(q, n, tickets, back) && q.count < n
    ensures FirstFree(q.ticket, 0) < n
  {
    if FirstFree(q.ticket, 0) == n {
      forall t | 0 <= t < n ensures LiveTicket(q, n, back, t) {
        assert q.ticket[t] >= 0;
      }
      Pigeonhole(seq(n, t requires 0 <= t < n => Offset(q.tail, q.ticket[t], n)), q.count);
    }
  }
}
