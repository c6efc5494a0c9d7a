/** The mailbox layer as a concurrent system: any number of clients and one cyclic handler.

    Every region that holds a mutex, and every assignment the handler makes without one, is one
    step.  Clients may take their steps between any two steps of the handler.
  */
module MailboxSystem {
  import opened Ring
  import opened MailboxQueue

  /** What an input pointer of a slave says: no input, input enabled, or a received mailbox. */
  datatype Ptr = Off | Ready | Holding(item: nat)

  /** How far a client is with emptying a full input: it copies the pointer, resets it, and
      then clears the flag. */
  datatype Reader = Away | Copied | Cleared

  /** One protocol input of one slave. */
  datatype Box = Box(ptr: Ptr, full: bool, reader: Reader)

  /** Where the handler is.  `rem` is how many slots this call may still look at, `loc` the slot
      it is looking at. */
  datatype Pc =
    | Idle
    | Loop(rem: nat)
    | Looked(rem: nat, loc: nat, state: State, mbx: Ref)
    | Sent(rem: nat, loc: nat, item: nat)
    | Marked(rem: nat, loc: nat, item: nat)
    | Returned(rem: nat, loc: nat)
    | Turn(rem: nat, loc: nat)
    | Check(rem: nat, loc: nat, rotated: bool)
    | Remove(rem: nat, loc: nat)
    | Give(rem: nat, item: nat)
    | Fetched(item: nat)
    | Stored(box: nat, item: nat)

  /** `content[i]` is the message in mailbox `i`, every message having its own number; `sent` are
      the messages a slave has accepted; `tickets` maps the tickets clients hold to the message
      each was issued for.  `fault` is set by anything the program does not guard against: a
      ring written past its size, a ticket table without a free entry, a dead pointer used. */
  datatype Sys = Sys(n: nat, pool: Pool, q: Queue, held: set<nat>, boxes: seq<Box>, content: seq<nat>,
                     nextmsg: nat, sent: set<nat>, tickets: map<nat, nat>, pc: Pc, fault: bool)

  datatype Action =
    | ClientGet
    | ClientDrop(item: nat)
    | ClientAdd(slave: nat, item: nat)
    | ClientDone(ticket: nat)
    | ClientExpire(ticket: nat)
    | ClientCopy(box: nat)
    | ClientClear(box: nat)
    | ClientEnd(box: nat)
    | OutStart
    | OutExit
    | OutLook
    | OutSend
    | OutFail
    | OutSkip
    | OutMark
    | OutPut
    | OutClear
    | OutRotate
    | OutCheck
    | OutRemove
    | OutGive
    | InFetch
    | InStore(box: nat)
    | InFull
    | InRefuse

  /** When a step can be taken: what the program itself checks, and who holds what. */
  predicate Enabled(s: Sys, a: Action)
  {
    match a
    case ClientGet => s.pool.count > 0
    case ClientDrop(i) => i in s.held
    case ClientAdd(_, i) => i in s.held
    case ClientDone(t) => t in s.tickets
    case ClientExpire(t) => t in s.tickets
    case ClientCopy(b) => b < |s.boxes| && s.boxes[b].full && s.boxes[b].reader == Away
    case ClientClear(b) => b < |s.boxes| && s.boxes[b].reader == Copied
    case ClientEnd(b) => b < |s.boxes| && s.boxes[b].reader == Cleared
    case OutStart => s.pc.Idle?
    case OutExit => s.pc.Loop?
    case OutLook => s.pc.Loop? && s.pc.rem > 0
    case OutSend => s.pc.Looked? && (s.pc.state == Req || s.pc.state == Fail)
    case OutFail => s.pc.Looked? && (s.pc.state == Req || s.pc.state == Fail)
    case OutSkip => s.pc.Looked?
    case OutMark => s.pc.Sent?
    case OutPut => s.pc.Marked?
    case OutClear => s.pc.Returned?
    case OutRotate => s.pc.Turn?
    case OutCheck => s.pc.Check?
    case OutRemove => s.pc.Remove?
    case OutGive => s.pc.Give?
    case InFetch => s.pc.Idle? && s.pool.count > 0
    case InStore(b) => s.pc.Fetched? && b < |s.boxes| && s.boxes[b].ptr != Off && !s.boxes[b].full
    case InFull => s.pc.Stored?
    case InRefuse => s.pc.Fetched?
  }

  predicate Sized(s: Sys)
  {
    && WellSized(s.q, s.n) && PoolSized(s.pool, s.n) && |s.content| == s.n
    && (forall i :: i in s.held ==> i < s.n)
    && (forall k :: 0 <= k < s.n ==> s.pool.list[k] < s.n)
    && (forall k :: 0 <= k < s.n && s.q.slots[k].mbx.Mbx? ==> s.q.slots[k].mbx.item < s.n)
    && match s.pc
       case Looked(_, loc, _, mbx) => loc < s.n && (mbx.Mbx? ==> mbx.item < s.n)
       case Sent(_, loc, i) => loc < s.n && i < s.n
       case Marked(_, loc, i) => loc < s.n && i < s.n
       case Returned(_, loc) => loc < s.n
       case Turn(_, loc) => loc < s.n
       case Check(_, loc, _) => loc < s.n
       case Remove(_, loc) => loc < s.n
       case Give(_, i) => i < s.n
       case Fetched(i) => i < s.n
       case Stored(b, i) => b < |s.boxes| && i < s.n
       case _ => true
  }

  function Fault(s: Sys): Sys
  {
    s.(fault := true)
  }

  /** Takes a mailbox from the pool and fills it with a new message. */
  function Fill(s: Sys): Sys
    requires Sized(s) && s.pool.count > 0
  {
    s.(pool := Get(s.pool, s.n), content := s.content[s.pool.list[s.pool.tail] := s.nextmsg], nextmsg := s.nextmsg + 1)
  }

  function PutBack(s: Sys, i: nat): Sys
    requires Sized(s)
  {
    if s.pool.count == s.n then Fault(s) else s.(pool := Put(s.pool, s.n, i))
  }

  function SetSlot(s: Sys, loc: nat, slot: Slot): Sys
    requires Sized(s) && loc < s.n
  {
    s.(q := s.q.(slots := s.q.slots[loc := slot]))
  }

  function SetBox(s: Sys, b: nat, box: Box): Sys
    requires b < |s.boxes|
  {
    s.(boxes := s.boxes[b := box])
  }

  function Apply(s: Sys, a: Action): Sys
    requires Sized(s) && Enabled(s, a)
  {
    match a
    case ClientGet => Fill(s).(held := s.held + {s.pool.list[s.pool.tail]})
    case ClientDrop(i) => PutBack(s.(held := s.held - {i}), i)
    case ClientAdd(slave, i) => ApplyAdd(s, slave, i)
    case ClientDone(t) => ApplyRelease(s, t, true)
    case ClientExpire(t) => ApplyRelease(s, t, false)
    case ClientCopy(b) =>
      var box := s.boxes[b];
      if !box.ptr.Holding? then Fault(s)
      else SetBox(s, b, box.(reader := Copied)).(held := s.held + {box.ptr.item})
    case ClientClear(b) => SetBox(s, b, s.boxes[b].(ptr := Ready, reader := Cleared))
    case ClientEnd(b) => SetBox(s, b, s.boxes[b].(full := false, reader := Away))
    case OutStart => s.(pc := Loop(s.q.count))
    case OutExit => s.(pc := Idle)
    case OutLook => s.(pc := Looked(s.pc.rem - 1, s.q.tail, s.q.slots[s.q.tail].state, s.q.slots[s.q.tail].mbx))
    case OutSend =>
      if s.pc.mbx.Null? then Fault(s)
      else s.(sent := s.sent + {s.content[s.pc.mbx.item]}, pc := Sent(s.pc.rem, s.pc.loc, s.pc.mbx.item))
    case OutFail => SetSlot(s, s.pc.loc, s.q.slots[s.pc.loc].(state := Fail)).(pc := Turn(s.pc.rem, s.pc.loc))
    case OutSkip =>
      if s.pc.state == None then s.(pc := Check(s.pc.rem, s.pc.loc, false)) else s.(pc := Turn(s.pc.rem, s.pc.loc))
    case OutMark =>
      SetSlot(s, s.pc.loc, s.q.slots[s.pc.loc].(state := Done)).(pc := Marked(s.pc.rem, s.pc.loc, s.pc.item))
    case OutPut => PutBack(s, s.pc.item).(pc := Returned(s.pc.rem, s.pc.loc))
    case OutClear => SetSlot(s, s.pc.loc, s.q.slots[s.pc.loc].(mbx := Null)).(pc := Turn(s.pc.rem, s.pc.loc))
    case OutRotate =>
      s.(q := Rotate(s.q, s.n, s.pc.loc), pc := Check(s.pc.rem, s.pc.loc, Rotates(s.q, s.n, s.pc.loc)))
    case OutCheck =>
      s.(pc := if s.q.slots[s.pc.loc].remove then Remove(s.pc.rem, s.pc.loc) else Loop(s.pc.rem))
    case OutRemove =>
      if s.q.count == 0 then Fault(s)
      else
        var mbx := s.q.slots[s.pc.loc].mbx;
        s.(q := Drop(s.q, s.n, s.pc.loc),
           pc := if mbx.Mbx? then Give(s.pc.rem, mbx.item) else Loop(s.pc.rem))
    case OutGive => PutBack(s, s.pc.item).(pc := Loop(s.pc.rem))
    case InFetch => Fill(s).(pc := Fetched(s.pool.list[s.pool.tail]))
    case InStore(b) => SetBox(s, b, s.boxes[b].(ptr := Holding(s.pc.item))).(pc := Stored(b, s.pc.item))
    case InFull => SetBox(s, s.pc.box, s.boxes[s.pc.box].(full := true)).(pc := Idle)
    case InRefuse => PutBack(s, s.pc.item).(pc := Idle)
  }

  function ApplyAdd(s: Sys, slave: nat, i: nat): Sys
    requires Sized(s) && i in s.held
  {
    if s.q.count == s.n then s
    else if FirstFree(s.q.ticket, 0) == s.n then Fault(s)
    else s.(q := Add(s.q, s.n, slave, i), held := s.held - {i},
            tickets := s.tickets[FirstFree(s.q.ticket, 0) := s.content[i]])
  }

  /** Giving up a ticket: only of a sent mailbox when `done` is asked for, of any otherwise. */
  function ApplyRelease(s: Sys, t: nat, done: bool): Sys
    requires Sized(s) && t in s.tickets
  {
    if t >= s.n || !(0 <= s.q.ticket[t] < s.n) then Fault(s)
    else if Released(s, t, done) then s.(q := Release(s.q, s.n, t), tickets := s.tickets - {t})
    else s
  }

  predicate Released(s: Sys, t: nat, done: bool)
    requires Sized(s) && t < s.n && 0 <= s.q.ticket[t] < s.n
  {
    var state := s.q.slots[s.q.ticket[t]].state;
    if done then state == Done else state != None
  }

  predicate Init(s: Sys)
  {
    && s.n > 0 && s.pool == FullPool(s.n) && s.q == EmptyQueue(s.n) && s.held == {}
    && (forall b :: 0 <= b < |s.boxes| ==> !s.boxes[b].full && s.boxes[b].reader == Away && !s.boxes[b].ptr.Holding?)
    && s.content == seq(s.n, i => i) && s.nextmsg == s.n && s.sent == {} && s.tickets == map[]
    && s.pc == Idle && !s.fault
  }
}
