/** Whole runs of the mailbox system: what holds in every reachable state, and exactly which step
    can end it. */
module MailboxRuns {
  import opened Ring
  import opened MailboxQueue
  import opened MailboxSystem
  import opened MailboxInvariant
  import opened MailboxSteps

  /** The steps `acts` can be taken one after the other. */
  ghost predicate Runs(s: Sys, acts: seq<Action>)
    decreases acts
  {
    acts == [] || (Sized(s) && Enabled(s, acts[0]) && Runs(Apply(s, acts[0]), acts[1..]))
  }

  ghost function Exec(s: Sys, acts: seq<Action>): Sys
    requires Runs(s, acts)
    decreases acts
  {
    if acts == [] then s else Exec(Apply(s, acts[0]), acts[1..])
  }

  /** No step of the run is the unsafe one. */
  ghost predicate AllGuarded(s: Sys, acts: seq<Action>)
    requires Runs(s, acts)
    decreases acts
  {
    acts == [] || (Guarded(s, acts[0]) && AllGuarded(Apply(s, acts[0]), acts[1..]))
  }

  lemma {:induction false} InitHolds(s: Sys) returns (x: Aux)
    requires Init(s)
    ensures Inv(s, x)
  {
    x := Aux(seq(s.n, i requires 0 <= i < s.n => Free(i)), seq(s.n, k => 0));
    forall p: Place, i: nat | Holds(s, p, i) ensures i < s.n && x.owner[i] == p {
    }
    forall k: nat | LiveSlot(s.q, s.n, k) ensures false {
    }
  }

  lemma {:induction false} RunKeeps(s: Sys, x: Aux, acts: seq<Action>) returns (x': Aux)
    requires Inv(s, x) && Runs(s, acts) && AllGuarded(s, acts)
    ensures Inv(Exec(s, acts), x')
    decreases acts
  {
    x' := x;
    if acts != [] {
      x' := StepKeeps(s, x, acts[0]);
      x' := RunKeeps(Apply(s, acts[0]), x', acts[1..]);
    }
  }

  /** In every reachable state every mailbox of the pool is in exactly one place. */
  lemma {:induction false} MailboxesAreConserved(s0: Sys, acts: seq<Action>, i: nat)
    requires Init(s0) && Runs(s0, acts) && AllGuarded(s0, acts) && i < s0.n
    ensures var s := Exec(s0, acts);
            && Sized(s) && s.n == s0.n && !s.fault
            && exists p :: Holds(s, p, i) && forall r :: Holds(s, r, i) ==> r == p
  {
    var x := InitHolds(s0);
    x := RunKeeps(s0, x, acts);
    SizeStays(s0, acts);
    var s := Exec(s0, acts);
    assert Holds(s, x.owner[i], i);
  }

  lemma {:induction false} SizeStays(s: Sys, acts: seq<Action>)
    requires Runs(s, acts)
    ensures Exec(s, acts).n == s.n
    decreases acts
  {
    if acts != [] {
      SizeStays(Apply(s, acts[0]), acts[1..]);
    }
  }

  /** In every reachable state the tickets clients hold and the slots not yet marked for removal
      stand for each other one to one, and a queue with room has a ticket to give. */
  lemma {:induction false} TicketsAreSlots(s0: Sys, acts: seq<Action>)
    requires Init(s0) && Runs(s0, acts) && AllGuarded(s0, acts)
    ensures var s := Exec(s0, acts);
            && Sized(s)
            && (forall t :: t in s.tickets ==> t < s.n && s.q.ticket[t] >= 0 && LiveSlot(s.q, s.n, s.q.ticket[t]))
            && (forall t, u :: t in s.tickets && u in s.tickets && t != u ==> s.q.ticket[t] != s.q.ticket[u])
            && (forall k: nat :: LiveSlot(s.q, s.n, k) ==> exists t :: t in s.tickets && t < s.n && s.q.ticket[t] == k)
            && (s.q.count < s.n ==> FirstFree(s.q.ticket, 0) < s.n)
  {
    var x := InitHolds(s0);
    x := RunKeeps(s0, x, acts);
    var s := Exec(s0, acts);
    if s.q.count < s.n {
      RoomInTickets(s.q, s.n, s.tickets, x.back);
    }
    forall t | t in s.tickets ensures LiveTicket(s.q, s.n, x.back, t) {
    }
    forall k: nat | LiveSlot(s.q, s.n, k) ensures exists t :: t in s.tickets && t < s.n && s.q.ticket[t] == k {
      assert x.back[k] in s.tickets;
    }
  }

  /** A client that is told its mailbox is done has had its own message accepted by a slave,
      through whatever rotations. */
  lemma {:induction false} DoneMeansSent(s0: Sys, acts: seq<Action>, t: nat)
    requires Init(s0) && Runs(s0, acts) && AllGuarded(s0, acts) && t in Exec(s0, acts).tickets
    ensures var s := Exec(s0, acts);
            && Sized(s) && t < s.n && 0 <= s.q.ticket[t] < s.n
            && (Released(s, t, true) ==> s.tickets[t] in s.sent)
  {
    var x := InitHolds(s0);
    x := RunKeeps(s0, x, acts);
    var s := Exec(s0, acts);
    assert LiveTicket(s.q, s.n, x.back, t);
  }

  /** No message is accepted twice. */
  lemma {:induction false} SentOnce(s0: Sys, acts: seq<Action>)
    requires Init(s0) && Runs(s0, acts) && AllGuarded(s0, acts)
    ensures var s := Exec(s0, acts);
            Sized(s) && (Enabled(s, OutSend) ==> s.pc.mbx.Mbx? && s.content[s.pc.mbx.item] !in s.sent)
  {
    var x := InitHolds(s0);
    x := RunKeeps(s0, x, acts);
    var s := Exec(s0, acts);
    if Enabled(s, OutSend) {
      QueuedIsOwned(s, x, s.pc.loc);
      assert MaySend(s.q, s.pc, x.owner[s.pc.mbx.item]);
    }
  }

  // ----- The unsafe step -----

  /** A slot in the ring that says nothing: no ticket stands for it and it is not to be removed.
      The handler never gets past it. */
  ghost predicate DeadSlot(s: Sys, k: nat)
    requires Sized(s)
  {
    InQueue(s.q, s.n, k) && s.q.slots[k].state == None && !s.q.slots[k].remove
  }

  lemma {:induction false} NoDeadSlot(s: Sys, x: Aux, k: nat)
    requires Inv(s, x)
    ensures !DeadSlot(s, k)
  {
    if InQueue(s.q, s.n, k) {
      assert SlotOk(s.q.slots[k], k == Finishing(s.pc));
    }
  }

  /** The handler looks at a dead slot at the tail and leaves the queue as it found it. */
  lemma {:induction false} DeadTailStays(s: Sys)
    requires Sized(s) && s.pc.Loop? && s.pc.rem > 0 && DeadSlot(s, s.q.tail)
    ensures var s1 := Apply(s, OutLook);
            Sized(s1) && Enabled(s1, OutSkip) && !Enabled(s1, OutSend) && !Enabled(s1, OutFail) &&
            var s2 := Apply(s1, OutSkip);
            Sized(s2) && Enabled(s2, OutCheck) && Apply(s2, OutCheck) == s.(pc := Loop(s.pc.rem - 1))
  {
  }

  /** What is left when the slot a mailbox was rotated from is filled, given up, and then taken
      for the slot the handler was to remove. */
  ghost predicate Broken(s: Sys, s': Sys, slave: nat, i: nat)
    requires Sized(s) && s.pc.Check?
  {
    && Sized(s') && s'.n == s.n && DeadSlot(s', s.pc.loc)
    && !InQueue(s'.q, s'.n, s.q.tail)
    && s'.q.slots[s.q.tail] == s.q.slots[s.q.tail]
    && (forall t :: t in s.tickets ==> t in s'.tickets && s'.tickets[t] == s.tickets[t] && t < s.n
                                       && s'.q.ticket[t] == s.q.ticket[t])
    && s'.sent == s.sent && s'.pc == Give(s.pc.rem, i)
  }

  ghost function Spoil(s: Sys, slave: nat, i: nat): seq<Action>
    requires Sized(s)
  {
    [ClientAdd(slave, i), ClientExpire(FirstFree(s.q.ticket, 0)), OutCheck, OutRemove]
  }

  /** From every reachable state in which the unsafe step can be taken, that step, the new
      mailbox's ticket running out, and the next two steps of the handler break the queue: the
      slot at the tail has left the ring with whatever ticket stands for it, and a dead slot has
      taken a place in the ring. */
  lemma {:induction false} UnguardedBreaks(s: Sys, x: Aux, slave: nat, i: nat)
    requires Inv(s, x) && i in s.held && !Guarded(s, ClientAdd(slave, i))
    ensures Runs(s, Spoil(s, slave, i)) && Broken(s, Exec(s, Spoil(s, slave, i)), slave, i)
  {
    RoomInTickets(s.q, s.n, s.tickets, x.back);
    var t := FirstFree(s.q.ticket, 0);
    forall u | u in s.tickets ensures u < s.n && s.q.ticket[u] >= 0 {
      assert LiveTicket(s.q, s.n, x.back, u);
    }
    SpoilSteps(s, slave, i, t);
    SpoilBreaks(s, slave, i, t);
  }

  /** The queue after the mailbox is added at the head and its ticket `t` given up. */
  ghost function Spoiled(q: Queue, n: nat, slave: nat, i: nat, t: nat): (q': Queue)
    requires WellSized(q, n) && q.count + 1 == n && t < n && t == FirstFree(q.ticket, 0)
    ensures WellSized(q', n) && q'.count == n && q'.tail == q.tail
    ensures q'.slots == q.slots[q.head := Slot(Mbx(i), Req, true, slave)] && q'.ticket == q.ticket[t := -1]
  {
    Release(Add(q, n, slave, i), n, t)
  }

  ghost function Wreck(s: Sys, slave: nat, i: nat, t: nat): Sys
    requires Sized(s) && s.q.count + 1 == s.n && t < s.n && t == FirstFree(s.q.ticket, 0) && s.pc.Check?
             && i < |s.content|
  {
    s.(q := Drop(Spoiled(s.q, s.n, slave, i, t), s.n, s.q.head), held := s.held - {i},
       tickets := s.tickets[t := s.content[i]] - {t}, pc := Give(s.pc.rem, i))
  }

  ghost predicate CanSpoil(s: Sys, i: nat, t: nat)
  {
    && Sized(s) && i in s.held && i < s.n && s.pc.Check? && s.pc.rotated && s.q.count + 1 == s.n
    && s.pc.loc == s.q.head && s.q.count > 0 && t < s.n && t == FirstFree(s.q.ticket, 0)
    && forall u :: u in s.tickets ==> u < s.n && s.q.ticket[u] >= 0
  }

  lemma {:induction false} SpoilSteps(s: Sys, slave: nat, i: nat, t: nat)
    requires CanSpoil(s, i, t)
    ensures Runs(s, Spoil(s, slave, i)) && Exec(s, Spoil(s, slave, i)) == Wreck(s, slave, i, t)
  {
    var s1, s2 := SpoilByClient(s, slave, i, t);
    SpoilByHandler(s, s2, slave, i, t);
    hide *;
    RunsFour(s, ClientAdd(slave, i), ClientExpire(t), OutCheck, OutRemove);
  }

  lemma {:induction false} SpoilByClient(s: Sys, slave: nat, i: nat, t: nat) returns (s1: Sys, s2: Sys)
    requires CanSpoil(s, i, t)
    ensures Sized(s) && Enabled(s, ClientAdd(slave, i)) && s1 == Apply(s, ClientAdd(slave, i))
    ensures Sized(s1) && Enabled(s1, ClientExpire(t)) && s2 == Apply(s1, ClientExpire(t))
    ensures s2 == s.(q := Spoiled(s.q, s.n, slave, i, t), held := s.held - {i},
                     tickets := s.tickets[t := s.content[i]] - {t})
  {
    s1 := s.(q := Add(s.q, s.n, slave, i), held := s.held - {i}, tickets := s.tickets[t := s.content[i]]);
    s2 := s1.(q := Spoiled(s.q, s.n, slave, i, t), tickets := s1.tickets - {t});
  }

  lemma {:induction false} SpoilByHandler(s: Sys, s2: Sys, slave: nat, i: nat, t: nat)
    requires CanSpoil(s, i, t)
    requires s2 == s.(q := Spoiled(s.q, s.n, slave, i, t), held := s.held - {i},
                      tickets := s.tickets[t := s.content[i]] - {t})
    ensures Sized(s2) && Enabled(s2, OutCheck)
    ensures Sized(Apply(s2, OutCheck)) && Enabled(Apply(s2, OutCheck), OutRemove)
    ensures Apply(Apply(s2, OutCheck), OutRemove) == Wreck(s, slave, i, t)
  {
  }

  lemma {:induction false} SpoilBreaks(s: Sys, slave: nat, i: nat, t: nat)
    requires CanSpoil(s, i, t)
    ensures Broken(s, Wreck(s, slave, i, t), slave, i)
  {
  }

  lemma {:induction false} RunsFour(s: Sys, a: Action, b: Action, c: Action, d: Action)
    requires Sized(s) && Enabled(s, a)
    requires Sized(Apply(s, a)) && Enabled(Apply(s, a), b)
    requires Sized(Apply(Apply(s, a), b)) && Enabled(Apply(Apply(s, a), b), c)
    requires Sized(Apply(Apply(Apply(s, a), b), c)) && Enabled(Apply(Apply(Apply(s, a), b), c), d)
    ensures Runs(s, [a, b, c, d]) && Exec(s, [a, b, c, d]) == Apply(Apply(Apply(Apply(s, a), b), c), d)
  {
    hide Apply, Sized, Enabled, Runs, Exec;
    var s1, s2, s3 := Apply(s, a), Apply(Apply(s, a), b), Apply(Apply(Apply(s, a), b), c);
    RunsNone(Apply(s3, d));
    RunsFirst(s3, d, []);
    RunsFirst(s2, c, [d] + []);
    RunsFirst(s1, b, [c] + ([d] + []));
    RunsFirst(s, a, [b] + ([c] + ([d] + [])));
    assert [a] + ([b] + ([c] + ([d] + []))) == [a, b, c, d];
  }

  lemma {:induction false} RunsNone(s: Sys)
    ensures Runs(s, []) && Exec(s, []) == s
  {
  }

  lemma {:induction false} RunsFirst(s: Sys, a: Action, rest: seq<Action>)
    requires Sized(s) && Enabled(s, a) && Runs(Apply(s, a), rest)
    ensures Runs(s, [a] + rest) && Exec(s, [a] + rest) == Exec(Apply(s, a), rest)
  {
    hide Apply, Sized, Enabled;
    assert ([a] + rest)[0] == a && ([a] + rest)[1..] == rest;
  }

  /** Guarded steps alone can lead to a dead slot in the ring. */
  ghost predicate Endangered(s: Sys)
  {
    exists acts: seq<Action>, k: nat :: ReachesDead(s, acts, k)
  }

  ghost predicate ReachesDead(s: Sys, acts: seq<Action>, k: nat)
  {
    Runs(s, acts) && AllGuarded(s, acts) && Sized(Exec(s, acts)) && DeadSlot(Exec(s, acts), k)
  }

  lemma {:induction false} SoundIsSafe(s: Sys, x: Aux)
    requires Inv(s, x)
    ensures !Endangered(s)
  {
    hide Inv, DeadSlot, Runs, AllGuarded, Exec;
    forall acts: seq<Action>, k: nat ensures !ReachesDead(s, acts, k) {
      if Runs(s, acts) && AllGuarded(s, acts) {
        var x' := RunKeeps(s, x, acts);
        NoDeadSlot(Exec(s, acts), x', k);
      }
    }
  }

  lemma {:induction false} RunsRest(s: Sys, a: Action, rest: seq<Action>)
    requires Runs(s, [a] + rest)
    ensures Sized(s) && Enabled(s, a) && Runs(Apply(s, a), rest) && Exec(Apply(s, a), rest) == Exec(s, [a] + rest)
  {
    hide Apply, Sized, Enabled;
    assert ([a] + rest)[0] == a && ([a] + rest)[1..] == rest;
  }

  /** Only the taking of a slot by a client is ever unsafe. */
  lemma {:induction false} NoneAdds(s: Sys, acts: seq<Action>)
    requires Runs(s, acts) && forall i :: 0 <= i < |acts| ==> !acts[i].ClientAdd?
    ensures AllGuarded(s, acts)
    decreases acts
  {
    hide Apply, Sized, Enabled;
    if acts != [] {
      NoneAdds(Apply(s, acts[0]), acts[1..]);
    }
  }

  lemma {:induction false} UnguardedEndangers(s: Sys, x: Aux, slave: nat, i: nat)
    requires Inv(s, x) && Enabled(s, ClientAdd(slave, i)) && i in s.held && !Guarded(s, ClientAdd(slave, i))
    ensures Endangered(Apply(s, ClientAdd(slave, i)))
  {
    hide Inv, Apply, Enabled, Runs, Exec, AllGuarded, DeadSlot;
    UnguardedBreaks(s, x, slave, i);
    var rest := [ClientExpire(FirstFree(s.q.ticket, 0)), OutCheck, OutRemove];
    assert [ClientAdd(slave, i)] + rest == Spoil(s, slave, i);
    RunsRest(s, ClientAdd(slave, i), rest);
    NoneAdds(Apply(s, ClientAdd(slave, i)), rest);
    assert ReachesDead(Apply(s, ClientAdd(slave, i)), rest, s.pc.loc);
  }

  /** The guard is exact: a step leaves the ring safe from dead slots, whatever guarded steps
      follow, if and only if it is guarded. */
  lemma {:induction false} GuardIsExact(s: Sys, x: Aux, a: Action)
    requires Inv(s, x) && Enabled(s, a)
    ensures Guarded(s, a) <==> !Endangered(Apply(s, a))
  {
    hide Endangered, Apply, Conserved, QueueInv, BoxesOk, HandlerOk;
    if Guarded(s, a) {
      var x' := StepKeeps(s, x, a);
      SoundIsSafe(Apply(s, a), x');
    } else {
      UnguardedEndangers(s, x, a.slave, a.item);
    }
  }

  // ----- The unsafe step can be reached, whatever the size of the pool -----

  lemma {:induction false} RunExtends(s: Sys, acts: seq<Action>, a: Action)
    requires Runs(s, acts) && Sized(Exec(s, acts)) && Enabled(Exec(s, acts), a)
    ensures Runs(s, acts + [a]) && Exec(s, acts + [a]) == Apply(Exec(s, acts), a)
    ensures AllGuarded(s, acts) && Guarded(Exec(s, acts), a) ==> AllGuarded(s, acts + [a])
    decreases acts
  {
    hide Apply, Enabled, Sized, Guarded;
    if acts == [] {
      assert acts + [a] == [a] && [a][1..] == [];
    } else {
      assert (acts + [a])[1..] == acts[1..] + [a];
      RunExtends(Apply(s, acts[0]), acts[1..], a);
    }
  }

  /** Clients have added `k` mailboxes and nothing else has happened. */
  ghost predicate Queued(s: Sys, k: nat)
  {
    && Sized(s) && k < s.n && s.q.count == k && s.q.tail == 0 && s.pool.count == s.n - k && s.pc.Idle? && s.held == {}
    && (forall j :: 0 <= j < k ==> s.q.slots[j].state == Req && !s.q.slots[j].remove)
  }

  lemma {:induction false} OneMoreQueued(s: Sys, k: nat) returns (i: nat)
    requires Queued(s, k) && k + 1 < s.n && FirstFree(s.q.ticket, 0) < s.n
    ensures Enabled(s, ClientGet) && Guarded(s, ClientGet)
    ensures var s1 := Apply(s, ClientGet);
            && Sized(s1) && Enabled(s1, ClientAdd(0, i)) && Guarded(s1, ClientAdd(0, i))
            && Apply(s1, ClientAdd(0, i)).n == s.n && Queued(Apply(s1, ClientAdd(0, i)), k + 1)
  {
    i := s.pool.list[s.pool.tail];
  }

  lemma {:induction false} FillUp(s0: Sys, k: nat) returns (acts: seq<Action>)
    requires Init(s0) && k < s0.n
    ensures Runs(s0, acts) && AllGuarded(s0, acts) && Exec(s0, acts).n == s0.n && Queued(Exec(s0, acts), k)
    decreases k
  {
    if k == 0 {
      acts := [];
    } else {
      acts := FillUp(s0, k - 1);
      var s := Exec(s0, acts);
      var i := NextQueued(s0, acts, k - 1);
      hide Apply, Enabled, Guarded, Init;
      assert Sized(s);
      RunExtends(s0, acts, ClientGet);
      RunExtends(s0, acts + [ClientGet], ClientAdd(0, i));
      acts := acts + [ClientGet] + [ClientAdd(0, i)];
    }
  }

  lemma {:induction false} NextQueued(s0: Sys, acts: seq<Action>, k: nat) returns (i: nat)
    requires Init(s0) && Runs(s0, acts) && AllGuarded(s0, acts) && Queued(Exec(s0, acts), k) && k + 1 < Exec(s0, acts).n
    ensures var s := Exec(s0, acts);
            && Sized(s) && Enabled(s, ClientGet) && Guarded(s, ClientGet)
            && var s1 := Apply(s, ClientGet);
            && Sized(s1) && Enabled(s1, ClientAdd(0, i)) && Guarded(s1, ClientAdd(0, i))
            && Apply(s1, ClientAdd(0, i)).n == s.n && Queued(Apply(s1, ClientAdd(0, i)), k + 1)
  {
    var x := InitHolds(s0);
    x := RunKeeps(s0, x, acts);
    var s := Exec(s0, acts);
    RoomInTickets(s.q, s.n, s.tickets, x.back);
    i := OneMoreQueued(s, k);
  }

  /** The handler looks at the first of the queued mailboxes while its slave cannot be written to. */
  lemma {:induction false} LookAtFirst(s: Sys)
    requires s.n >= 2 && Queued(s, s.n - 1)
    ensures Enabled(s, OutStart)
    ensures var s1 := Apply(s, OutStart);
            && Sized(s1) && Enabled(s1, OutLook)
            && var s2 := Apply(s1, OutLook);
            && Sized(s2) && Enabled(s2, OutSkip) && Apply(s2, OutSkip) == s.(pc := Turn(s.n - 2, 0))
  {
  }

  /** It turns it to the head, and a client takes the last free mailbox. */
  lemma {:induction false} TurnFirst(s: Sys, s': Sys, x: Aux) returns (i: nat)
    requires s.n >= 2 && Queued(s, s.n - 1) && s' == s.(pc := Turn(s.n - 2, 0)) && Inv(s', x)
    ensures Sized(s') && Enabled(s', OutRotate)
    ensures var s1 := Apply(s', OutRotate);
            && Sized(s1) && Enabled(s1, ClientGet)
            && var s2 := Apply(s1, ClientGet);
            && Sized(s2) && i in s2.held && !Guarded(s2, ClientAdd(0, i))
  {
    assert LiveSlot(s'.q, s'.n, 0);
    i := s.pool.list[s.pool.tail];
  }

  lemma {:induction false} RunOn(s0: Sys, acts: seq<Action>, a: Action, x: Aux) returns (x': Aux)
    requires Runs(s0, acts) && Inv(Exec(s0, acts), x) && Enabled(Exec(s0, acts), a) && !a.ClientAdd?
    ensures Runs(s0, acts + [a]) && Exec(s0, acts + [a]) == Apply(Exec(s0, acts), a) && Inv(Exec(s0, acts + [a]), x')
  {
    x' := StepKeeps(Exec(s0, acts), x, a);
    RunExtends(s0, acts, a);
  }

  /** For every pool of two or more mailboxes there is a run to a sound state in which the unsafe
      step can be taken. */
  lemma {:induction false} RaceIsReachable(s0: Sys) returns (acts: seq<Action>, x: Aux, i: nat)
    requires Init(s0) && s0.n >= 2
    ensures Runs(s0, acts) && Inv(Exec(s0, acts), x)
    ensures i in Exec(s0, acts).held && !Guarded(Exec(s0, acts), ClientAdd(0, i))
  {
    var fill := FillUp(s0, s0.n - 1);
    var s := Exec(s0, fill);
    x := InitHolds(s0);
    x := RunKeeps(s0, x, fill);
    hide Init, Inv, Apply, Guarded;
    LookAtFirst(s);
    x := RunOn(s0, fill, OutStart, x);
    x := RunOn(s0, fill + [OutStart], OutLook, x);
    x := RunOn(s0, fill + [OutStart] + [OutLook], OutSkip, x);
    acts := fill + [OutStart] + [OutLook] + [OutSkip];
    i := TurnFirst(s, Exec(s0, acts), x);
    x := RunOn(s0, acts, OutRotate, x);
    x := RunOn(s0, acts + [OutRotate], ClientGet, x);
    acts := acts + [OutRotate] + [ClientGet];
  }
}
