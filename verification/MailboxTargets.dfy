/** Who gets what: the slave that accepts a message is the one it was queued for, through whatever
    rotations. */
module MailboxTargets {
  import opened Ring
  import opened MailboxQueue
  import opened MailboxSystem
  import opened MailboxInvariant
  import opened MailboxSteps
  import opened MailboxRuns

  /** For which slave each message was queued, and which slave accepted it. */
  datatype Ledger = Ledger(asked: map<nat, nat>, accepted: map<nat, nat>)

  /** What a step adds: a client that finds room asks for a slave; the handler writes a mailbox to the
      slave of the slot it is looking at. */
  ghost function Noted(s: Sys, a: Action, l: Ledger): Ledger
    requires Sized(s) && Enabled(s, a)
  {
    match a
    case ClientAdd(slave, i) => if s.q.count < s.n then l.(asked := l.asked[s.content[i] := slave]) else l
    case OutSend =>
      if s.pc.mbx.Null? then l
      else l.(accepted := l.accepted[s.content[s.pc.mbx.item] := s.q.slots[s.pc.loc].slave])
    case _ => l
  }

  ghost function LedgerOf(s: Sys, acts: seq<Action>, l: Ledger): Ledger
    requires Runs(s, acts)
    decreases acts
  {
    if acts == [] then l else LedgerOf(Apply(s, acts[0]), acts[1..], Noted(s, acts[0], l))
  }

  /** The message in slot `k`, if it is still to be sent, was queued for the slave of the slot. */
  ghost predicate MeantAt(q: Queue, n: nat, content: seq<nat>, asked: map<nat, nat>, k: nat)
    requires WellSized(q, n) && |content| == n
  {
    InQueue(q, n, k) && q.slots[k].mbx.Mbx? && q.slots[k].state != Done ==>
      var i := q.slots[k].mbx.item;
      i < n && content[i] in asked && asked[content[i]] == q.slots[k].slave
  }

  ghost predicate Meant(q: Queue, n: nat, content: seq<nat>, asked: map<nat, nat>)
    requires WellSized(q, n) && |content| == n
  {
    forall k: nat :: MeantAt(q, n, content, asked, k)
  }

  ghost predicate Kept(s: Sys, l: Ledger)
    requires Sized(s)
  {
    && Meant(s.q, s.n, s.content, l.asked) && l.accepted.Keys == s.sent
    && forall m :: m in l.accepted ==> m in l.asked && l.accepted[m] == l.asked[m]
  }

  /** Slots of the same ring that lose mailboxes or are done say nothing new. */
  lemma {:induction false} SlotsSettle(q: Queue, q': Queue, n: nat, content: seq<nat>, asked: map<nat, nat>)
    requires WellSized(q, n) && WellSized(q', n) && |content| == n && Meant(q, n, content, asked)
    requires q'.tail == q.tail && q'.count == q.count
    requires forall k :: 0 <= k < n ==>
               q'.slots[k].mbx.Null? || q'.slots[k].state == Done
               || (q'.slots[k].mbx == q.slots[k].mbx && q'.slots[k].slave == q.slots[k].slave
                   && q.slots[k].state != Done)
    ensures Meant(q', n, content, asked)
  {
    forall k: nat ensures MeantAt(q', n, content, asked, k) {
      assert MeantAt(q, n, content, asked, k);
    }
  }

  /** A mailbox that is filled anew is in no slot. */
  lemma {:induction false} FillSettles(s: Sys, x: Aux, asked: map<nat, nat>)
    requires Inv(s, x) && s.pool.count > 0 && Meant(s.q, s.n, s.content, asked)
    ensures Sized(Fill(s)) && Meant(Fill(s).q, s.n, Fill(s).content, asked)
  {
    var j := s.pool.list[s.pool.tail];
    assert Holds(s, Free(s.pool.tail), j);
    forall k: nat ensures MeantAt(s.q, s.n, Fill(s).content, asked, k) {
      assert MeantAt(s.q, s.n, s.content, asked, k);
      if InQueue(s.q, s.n, k) && s.q.slots[k].mbx == Mbx(j) && s.q.slots[k].state != Done {
        assert Holds(s, Queued(k), j);
      }
    }
  }

  /** A mailbox in a slot is not with a client. */
  lemma {:induction false} NotQueued(s: Sys, x: Aux, i: nat, k: nat)
    requires Inv(s, x) && i in s.held && InQueue(s.q, s.n, k) && s.q.slots[k].state != Done && s.q.slots[k].mbx.Mbx?
    ensures s.q.slots[k].mbx.item < s.n && i < s.n && s.content[s.q.slots[k].mbx.item] != s.content[i]
  {
    assert Holds(s, Held, i) && Holds(s, Queued(k), s.q.slots[k].mbx.item);
  }

  lemma {:induction false} AddSettles(s: Sys, x: Aux, slave: nat, i: nat, asked: map<nat, nat>)
    requires Inv(s, x) && i in s.held && s.q.count < s.n && Meant(s.q, s.n, s.content, asked)
    ensures FirstFree(s.q.ticket, 0) < s.n && WellSized(Add(s.q, s.n, slave, i), s.n)
    ensures Meant(Add(s.q, s.n, slave, i), s.n, s.content, asked[s.content[i] := slave])
  {
    RoomInTickets(s.q, s.n, s.tickets, x.back);
    var q', asked' := Add(s.q, s.n, slave, i), asked[s.content[i] := slave];
    forall k: nat ensures MeantAt(q', s.n, s.content, asked', k) {
      assert MeantAt(s.q, s.n, s.content, asked, k);
      if k != s.q.head && InQueue(q', s.n, k) && q'.slots[k].mbx.Mbx? && q'.slots[k].state != Done {
        NotQueued(s, x, i, k);
      }
    }
  }

  lemma {:induction false} RotateSettles(q: Queue, n: nat, content: seq<nat>, asked: map<nat, nat>)
    requires WellSized(q, n) && |content| == n && Meant(q, n, content, asked) && q.count > 0
    ensures WellSized(Rotate(q, n, q.tail), n) && Meant(Rotate(q, n, q.tail), n, content, asked)
  {
    var q' := Rotate(q, n, q.tail);
    forall k: nat ensures MeantAt(q', n, content, asked, k) {
      assert MeantAt(q, n, content, asked, k) && MeantAt(q, n, content, asked, q.tail);
    }
  }

  lemma {:induction false} DropSettles(q: Queue, n: nat, content: seq<nat>, asked: map<nat, nat>)
    requires WellSized(q, n) && |content| == n && Meant(q, n, content, asked) && q.count > 0
    ensures WellSized(Drop(q, n, q.tail), n) && Meant(Drop(q, n, q.tail), n, content, asked)
  {
    var q' := Drop(q, n, q.tail);
    forall k: nat ensures MeantAt(q', n, content, asked, k) {
      assert MeantAt(q, n, content, asked, k);
    }
  }

  // ----- Every step -----

  lemma {:induction false} InvMeans(s: Sys, x: Aux)
    requires Inv(s, x)
    ensures Sized(s) && |s.content| == s.n
    ensures (s.pc.Sent? || s.pc.Marked? || s.pc.Returned? || s.pc.Looked? || s.pc.Turn? || s.pc.Remove?) ==>
              s.pc.loc == s.q.tail && s.q.count > 0
  {
  }

  /** A step that neither fills, adds, turns nor removes. */
  predicate Quiet(a: Action)
  {
    !a.ClientGet? && !a.InFetch? && !a.ClientAdd? && !a.OutRotate? && !a.OutRemove?
  }

  lemma {:induction false} QuietSettles(s: Sys, x: Aux, a: Action, asked: map<nat, nat>)
    requires Inv(s, x) && Enabled(s, a) && Quiet(a) && Meant(s.q, s.n, s.content, asked) && Sized(Apply(s, a))
    ensures Apply(s, a).n == s.n && Meant(Apply(s, a).q, s.n, Apply(s, a).content, asked)
  {
    hide Conserved, QueueInv, Unsent, FreshMessages, BoxesOk, Meant;
    SlotsSettle(s.q, Apply(s, a).q, s.n, s.content, asked);
  }

  /** A step keeps every message in the queue on its way to the slave it was queued for. */
  lemma {:induction false} StepMeans(s: Sys, x: Aux, a: Action, asked: map<nat, nat>)
    requires Inv(s, x) && Enabled(s, a) && Guarded(s, a) && Meant(s.q, s.n, s.content, asked)
    ensures Sized(Apply(s, a)) && Apply(s, a).n == s.n
    ensures Meant(Apply(s, a).q, s.n, Apply(s, a).content, Noted(s, a, Ledger(asked, map[])).asked)
  {
    hide Conserved, QueueInv, Unsent, FreshMessages, BoxesOk, Meant, HandlerOk, Guarded;
    var x' := StepKeeps(s, x, a);
    InvMeans(s, x);
    if Quiet(a) {
      QuietSettles(s, x, a, asked);
    } else {
      match a
      case ClientGet => FillSettles(s, x, asked);
      case InFetch => FillSettles(s, x, asked);
      case ClientAdd(slave, i) =>
        if s.q.count < s.n {
          AddSettles(s, x, slave, i, asked);
        }
      case OutRotate => RotateSettles(s.q, s.n, s.content, asked);
      case OutRemove => DropSettles(s.q, s.n, s.content, asked);
    }
  }

  /** A message a client still holds has been accepted by no slave. */
  lemma {:induction false} HeldUnsent(s: Sys, x: Aux, i: nat)
    requires Inv(s, x) && i in s.held
    ensures i < s.n && s.content[i] !in s.sent
  {
    assert Holds(s, Held, i);
    assert MaySend(s.q, s.pc, x.owner[i]);
  }

  /** The handler writes to the slave the message was queued for. */
  lemma {:induction false} WritesAsMeant(s: Sys, x: Aux, asked: map<nat, nat>)
    requires Inv(s, x) && Enabled(s, OutSend) && Meant(s.q, s.n, s.content, asked)
    ensures s.pc.mbx.Mbx? && s.pc.mbx.item < s.n && s.content[s.pc.mbx.item] in asked
    ensures asked[s.content[s.pc.mbx.item]] == s.q.slots[s.pc.loc].slave
  {
    assert MeantAt(s.q, s.n, s.content, asked, s.pc.loc);
    assert SlotOk(s.q.slots[s.pc.loc], s.pc.loc == Finishing(s.pc));
  }

  lemma {:induction false} SentBy(s: Sys, a: Action)
    requires Sized(s) && Enabled(s, a) && (a.OutSend? ==> s.pc.mbx.Mbx?)
    ensures Apply(s, a).sent == s.sent + if a.OutSend? then {s.content[s.pc.mbx.item]} else {}
  {
  }

  lemma {:induction false} StepKept(s: Sys, x: Aux, a: Action, l: Ledger)
    requires Inv(s, x) && Enabled(s, a) && Guarded(s, a) && Kept(s, l)
    ensures Sized(Apply(s, a)) && Kept(Apply(s, a), Noted(s, a, l))
  {
    hide Inv, Apply, Guarded, Meant, Enabled;
    InvMeans(s, x);
    StepMeans(s, x, a, l.asked);
    if a.OutSend? {
      WritesAsMeant(s, x, l.asked);
    } else if a.ClientAdd? {
      HeldNow(s, a);
      HeldUnsent(s, x, a.item);
    }
    SentBy(s, a);
  }

  lemma {:induction false} HeldNow(s: Sys, a: Action)
    requires a.ClientAdd? && Enabled(s, a)
    ensures a.item in s.held
  {
  }

  lemma {:induction false} RunKept(s: Sys, x: Aux, acts: seq<Action>, l: Ledger)
    requires Inv(s, x) && Runs(s, acts) && AllGuarded(s, acts) && Kept(s, l)
    ensures Sized(Exec(s, acts)) && Kept(Exec(s, acts), LedgerOf(s, acts, l))
    decreases acts
  {
    hide Inv, Apply, Guarded, Kept, Enabled, Noted;
    InvMeans(s, x);
    if acts != [] {
      StepKept(s, x, acts[0], l);
      var x' := StepKeeps(s, x, acts[0]);
      RunKept(Apply(s, acts[0]), x', acts[1..], Noted(s, acts[0], l));
    }
  }

  lemma {:induction false} NothingKept(s: Sys)
    requires Init(s) && Sized(s)
    ensures Kept(s, Ledger(map[], map[]))
  {
    forall k: nat ensures MeantAt(s.q, s.n, s.content, map[], k) {
    }
  }

  /** In every guarded run every message a slave has accepted was queued for that very slave. */
  lemma {:induction false} AcceptedAsAsked(s0: Sys, acts: seq<Action>)
    requires Init(s0) && Runs(s0, acts) && AllGuarded(s0, acts)
    ensures var l := LedgerOf(s0, acts, Ledger(map[], map[]));
            && l.accepted.Keys == Exec(s0, acts).sent
            && forall m :: m in l.accepted ==> m in l.asked && l.accepted[m] == l.asked[m]
  {
    var x := InitHolds(s0);
    NothingKept(s0);
    RunKept(s0, x, acts, Ledger(map[], map[]));
  }
}
