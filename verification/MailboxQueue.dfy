/** The transmit queue of a slave group, and the pool its mailboxes come from.

    The queue is a ring of slots.  A client that adds a mailbox gets a ticket; the ticket table
    says in which slot the mailbox currently is, because the cyclic handler moves mailboxes that
    could not be finished from the tail of the ring to its head.  Every function here is one
    region of the program that holds the mutex; the classes below do the same in place.
  */
module MailboxQueue {
  import opened Ring

  /** A pointer to a mailbox, given by its number in the pool. */
  datatype Ref = Null | Mbx(item: nat)

  datatype State = None | Req | Fail | Done

  datatype Slot = Slot(mbx: Ref, state: State, remove: bool, slave: nat)

  /** `ticket[t]` is the slot of ticket `t`, -1 when the ticket is free. */
  datatype Queue = Queue(head: nat, tail: nat, count: nat, slots: seq<Slot>, ticket: seq<int>)

  /** Sizes that fit and indices that are in range: what every region relies on. */
  predicate WellSized(q: Queue, n: nat)
  {
    |q.slots| == n && |q.ticket| == n && IsRing(q.head, q.tail, q.count, n)
  }

  /** The first free ticket from `t` on, the table size if there is none. */
  function FirstFree(ticket: seq<int>, t: nat): (r: nat)
    requires t <= |ticket|
    ensures t <= r <= |ticket|
    ensures r < |ticket| ==> ticket[r] < 0
    ensures forall u :: t <= u < r ==> ticket[u] >= 0
    decreases |ticket| - t
  {
    if t < |ticket| && ticket[t] >= 0 then FirstFree(ticket, t + 1) else t
  }

  /** The first ticket from `t` on that stands for slot `loc`, the table size if there is none. */
  function FindTicket(ticket: seq<int>, loc: nat, t: nat): (r: nat)
    requires t <= |ticket|
    ensures t <= r <= |ticket|
    ensures r < |ticket| ==> ticket[r] == loc
    ensures forall u :: t <= u < r ==> ticket[u] != loc
    decreases |ticket| - t
  {
    if t < |ticket| && ticket[t] != loc then FindTicket(ticket, loc, t + 1) else t
  }

  /** Puts a mailbox in the slot at the head under a free ticket.  Needs a ticket to be free. */
  function Add(q: Queue, n: nat, slave: nat, mbx: nat): Queue
    requires WellSized(q, n) && FirstFree(q.ticket, 0) < n
  {
    q.(ticket := q.ticket[FirstFree(q.ticket, 0) := q.head],
       slots := q.slots[q.head := Slot(Mbx(mbx), Req, false, slave)],
       head := Next(q.head, n),
       count := q.count + 1)
  }

  /** Gives up a ticket and marks its slot for removal. */
  function Release(q: Queue, n: nat, t: nat): Queue
    requires WellSized(q, n) && t < n && 0 <= q.ticket[t] < n
  {
    var k := q.ticket[t];
    q.(slots := q.slots[k := q.slots[k].(remove := true)], ticket := q.ticket[t := -1])
  }

  /** Moves the tail slot to the head, when it still has a ticket and the ring is neither empty
      nor full: a full ring has its head on its tail and is taken for an empty one. */
  function Rotate(q: Queue, n: nat, loc: nat): Queue
    requires WellSized(q, n)
  {
    var t := FindTicket(q.ticket, loc, 0);
    if q.head != q.tail && t < n then
      q.(ticket := q.ticket[t := q.head],
         slots := q.slots[q.head := q.slots[q.tail]],
         head := Next(q.head, n),
         tail := Next(q.tail, n))
    else q
  }

  predicate Rotates(q: Queue, n: nat, loc: nat)
    requires WellSized(q, n)
  {
    q.head != q.tail && FindTicket(q.ticket, loc, 0) < n
  }

  /** Clears slot `loc` and moves the tail, wherever `loc` is. */
  function Drop(q: Queue, n: nat, loc: nat): Queue
    requires WellSized(q, n) && loc < n && q.count > 0
  {
    q.(slots := q.slots[loc := Slot(Null, None, false, 0)], tail := Next(q.tail, n), count := q.count - 1)
  }

  /** The pool: a ring of the numbers of its free mailboxes. */
  datatype Pool = Pool(head: nat, tail: nat, count: nat, list: seq<nat>)

  predicate PoolSized(p: Pool, n: nat)
  {
    |p.list| == n && IsRing(p.head, p.tail, p.count, n)
  }

  function Get(p: Pool, n: nat): Pool
    requires PoolSized(p, n) && p.count > 0
  {
    p.(tail := Next(p.tail, n), count := p.count - 1)
  }

  function Put(p: Pool, n: nat, item: nat): Pool
    requires PoolSized(p, n)
  {
    p.(list := p.list[p.head := item], head := Next(p.head, n), count := p.count + 1)
  }

  /** A pool with all its mailboxes free. */
  function FullPool(n: nat): Pool
  {
    Pool(0, 0, n, seq(n, i => i))
  }

  function EmptyQueue(n: nat): Queue
  {
    Queue(0, 0, 0, seq(n, i => Slot(Null, None, false, 0)), seq(n, i => -1))
  }

  // ----- The program: the same regions in place -----

  class MbxPool {
    var listhead: nat
    var listtail: nat
    var listcount: nat
    const mbxemptylist: array<nat>

    ghost function Contents(): Pool
      reads this, mbxemptylist
    {
      Pool(listhead, listtail, listcount, mbxemptylist[..])
    }

    constructor (size: nat)
      requires size > 0
      ensures Contents() == FullPool(size) && fresh(mbxemptylist)
    {
      mbxemptylist := new nat[size];
      listhead, listtail, listcount := 0, 0, size;
      new;
      for item := 0 to size
        invariant listhead == 0 && listtail == 0 && listcount == size
        invariant forall i :: 0 <= i < item ==> mbxemptylist[i] == i
      {
        mbxemptylist[item] := item;
      }
    }

    /** The number of a free mailbox, -1 when there is none. */
    method GetMbx() returns (mbx: int)
      requires PoolSized(Contents(), mbxemptylist.Length)
      modifies this
      ensures old(listcount) == 0 ==> mbx == -1 && Contents() == old(Contents())
      ensures old(listcount) > 0 ==> mbx == old(mbxemptylist[listtail])
                                     && Contents() == Get(old(Contents()), mbxemptylist.Length)
    {
      mbx := -1;
      if listcount > 0 {
        mbx := mbxemptylist[listtail];
        listtail := listtail + 1;
        if listtail >= mbxemptylist.Length {
          listtail := 0;
        }
        listcount := listcount - 1;
      }
    }

    method DropMbx(item: int) returns (retval: int)
      requires PoolSized(Contents(), mbxemptylist.Length)
      modifies this, mbxemptylist
      ensures retval == if 0 <= item < mbxemptylist.Length then 1 else 0
      ensures Contents() == if retval == 1 then Put(old(Contents()), mbxemptylist.Length, item) else old(Contents())
    {
      retval := 0;
      if item >= 0 && item < mbxemptylist.Length {
        mbxemptylist[listhead] := item;
        listhead := listhead + 1;
        if listhead >= mbxemptylist.Length {
          listhead := 0;
        }
        listcount := listcount + 1;
        retval := 1;
      }
    }
  }

  class MbxQueue {
    var listhead: nat
    var listtail: nat
    var listcount: nat
    const slot: array<Slot>
    const ticket: array<int>

    ghost function Contents(): Queue
      reads this, slot, ticket
    {
      Queue(listhead, listtail, listcount, slot[..], ticket[..])
    }

    constructor (size: nat)
      requires size > 0
      ensures Contents() == EmptyQueue(size) && fresh(slot) && fresh(ticket)
    {
      slot := new Slot[size](i => Slot(Null, None, false, 0));
      ticket := new int[size](i => -1);
      listhead, listtail, listcount := 0, 0, 0;
    }

    /** The ticket of the added mailbox, -1 when the queue is full. */
    method AddQueue(slave: nat, mbx: nat) returns (t: int)
      requires WellSized(Contents(), slot.Length)
      requires listcount < slot.Length ==> FirstFree(ticket[..], 0) < slot.Length
      modifies this, slot, ticket
      ensures old(listcount) == slot.Length ==> t == -1 && Contents() == old(Contents())
      ensures old(listcount) < slot.Length ==> t == FirstFree(old(ticket[..]), 0)
                                               && Contents() == Add(old(Contents()), slot.Length, slave, mbx)
    {
      t := -1;
      if listcount < slot.Length {
        var ticketloc := listhead;
        t := 0;
        while t < slot.Length && ticket[t] >= 0
          invariant 0 <= t <= slot.Length
          invariant FirstFree(ticket[..], t) == FirstFree(ticket[..], 0)
        {
          t := t + 1;
        }
        ticket[t] := ticketloc;
        slot[ticketloc] := Slot(Mbx(mbx), slot[ticketloc].state, slot[ticketloc].remove, slave);
        listhead := listhead + 1;
        if listhead >= slot.Length {
          listhead := 0;
        }
        slot[ticketloc] := slot[ticketloc].(remove := false);
        slot[ticketloc] := slot[ticketloc].(state := Req);
        listcount := listcount + 1;
      }
    }

    /** Gives up ticket `t` if its mailbox has been sent. */
    method DoneQueue(t: int) returns (retval: int)
      requires WellSized(Contents(), slot.Length)
      requires 0 <= t < slot.Length ==> 0 <= ticket[t] < slot.Length
      modifies slot, ticket
      ensures retval == if 0 <= t < slot.Length && old(slot[ticket[t]]).state == Done then 1 else 0
      ensures Contents() == if retval == 1 then Release(old(Contents()), slot.Length, t) else old(Contents())
    {
      retval := 0;
      if t >= 0 && t < slot.Length {
        if slot[ticket[t]].state == Done {
          slot[ticket[t]] := slot[ticket[t]].(remove := true);
          ticket[t] := -1;
          retval := 1;
        }
      }
    }

    /** Gives up ticket `t` whatever has become of its mailbox. */
    method ExpireQueue(t: int) returns (retval: int)
      requires WellSized(Contents(), slot.Length)
      requires 0 <= t < slot.Length ==> 0 <= ticket[t] < slot.Length
      modifies slot, ticket
      ensures retval == if 0 <= t < slot.Length && old(slot[ticket[t]]).state != None then 1 else 0
      ensures Contents() == if retval == 1 then Release(old(Contents()), slot.Length, t) else old(Contents())
    {
      retval := 0;
      if t >= 0 && t < slot.Length {
        if slot[ticket[t]].state != None {
          slot[ticket[t]] := slot[ticket[t]].(remove := true);
          ticket[t] := -1;
          retval := 1;
        }
      }
    }

    method RotateQueue(ticketloc: nat) returns (retval: int)
      requires WellSized(Contents(), slot.Length)
      modifies this, slot, ticket
      ensures Contents() == Rotate(old(Contents()), slot.Length, ticketloc)
      ensures retval == if old(listhead) == old(listtail) || Rotates(old(Contents()), slot.Length, ticketloc) then 1
              else 0
    {
      retval := 0;
      var cnt := 0;
      var head, tail := listhead, listtail;
      if head != tail {
        while cnt < slot.Length && ticket[cnt] != ticketloc
          invariant 0 <= cnt <= slot.Length
          invariant FindTicket(ticket[..], ticketloc, cnt) == FindTicket(ticket[..], ticketloc, 0)
        {
          cnt := cnt + 1;
        }
        if cnt < slot.Length {
          ticket[cnt] := head;
          slot[head] := slot[tail];
          listhead := listhead + 1;
          if listhead >= slot.Length {
            listhead := 0;
          }
          listtail := listtail + 1;
          if listtail >= slot.Length {
            listtail := 0;
          }
          retval := 1;
        }
      } else {
        retval := 1;
      }
    }

    method DropQueue(ticketloc: nat) returns (mbx: Ref)
      requires WellSized(Contents(), slot.Length) && ticketloc < slot.Length && listcount > 0
      modifies this, slot
      ensures mbx == old(slot[ticketloc]).mbx
      ensures Contents() == Drop(old(Contents()), slot.Length, ticketloc)
    {
      mbx := slot[ticketloc].mbx;
      slot[ticketloc] := Slot(Null, None, false, 0);
      listtail := listtail + 1;
      if listtail >= slot.Length {
        listtail := 0;
      }
      listcount := listcount - 1;
    }
  }
}
