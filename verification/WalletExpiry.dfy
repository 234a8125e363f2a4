/** When an approval row is labelled "expired" (handler/approval.go).

    Two requests write that label for one row, and the expiry loop writes it for many.  Under every
    interleaving the label is only found on a row whose time somebody has seen run out. */
module WalletExpiry {
  import opened WalletModel
  import opened WalletLocks

  /** The step sees that the row's time is over: a request on that row, or a tick of the expiry loop. */
  predicate SeesLate(s: State, a: Action, id: nat) {
    && a.Step? && Enabled(s, a.t)
    && var req := s.threads[a.t].req;
       || ((req == View(id) || req == Approve(id)) && a.c.late)
       || (req == Sweep && id in a.c.lateIds)
  }

  /** Somebody saw it during the run. */
  predicate SeenLate(actions: seq<Action>, id: nat) {
    actions != []
    && (SeenLate(actions[..|actions| - 1], id) || SeesLate(Run(actions[..|actions| - 1]), actions[|actions| - 1], id))
  }

  predicate ExpiredRow(mem: Shared, id: nat) { id in mem.rows && mem.rows[id].status == Expired }

  predicate AboutToExpire(th: Thread) { th.pc.MarkExpired? || th.pc.ViewWrite? }

  /** A request keeps working on the row it names. */
  predicate Faithful(th: Thread) {
    (th.req.Approve? || th.req.View?) && !th.pc.Start? && !th.pc.Done? ==> th.id == th.req.id
  }

  ghost predicate ExpiryInv(actions: seq<Action>) {
    var s := Run(actions);
    && LockInv(s)
    && (forall id :: ExpiredRow(s.mem, id) ==> SeenLate(actions, id))
    && (forall t :: 0 <= t < |s.threads| ==>
      Faithful(s.threads[t]) && (AboutToExpire(s.threads[t]) ==> SeenLate(actions, s.threads[t].id)))
  }

  // ----- one step -----

  /** How a row becomes "expired". */
  ghost predicate ExpiryStep(mem: Shared, mem': Shared, th: Thread, c: Choice) {
    forall id :: ExpiredRow(mem', id) && !ExpiredRow(mem, id) ==>
      (AboutToExpire(th) && id == th.id) || (th.pc.Start? && th.req.Sweep? && id in c.lateIds)
  }

  lemma {:induction false} StatusExpiry(mem: Shared, id: nat, st: Status)
    ensures forall i :: ExpiredRow(SetStatus(mem, id, st), i) && !ExpiredRow(mem, i) ==> i == id && st == Expired
  {
  }

  lemma {:induction false} MutexExpiry(mem: Shared, th: Thread, c: Choice)
    requires AtMutex(th.pc)
    ensures ExpiryStep(mem, ChangeMutex(mem, th, c), th, c)
  {
    StatusExpiry(mem, th.id, Expired);
    StatusExpiry(mem, th.id, Rejected);
  }

  lemma {:induction false} EndExpiry(mem: Shared, th: Thread, c: Choice)
    requires AtEnd(th.pc)
    ensures ExpiryStep(mem, ChangeEnd(mem, th, c), th, c)
  {
    StatusExpiry(mem, th.id, Expired);
    StatusExpiry(mem, th.id, if th.succeeded then Approved else Failed);
  }

  lemma {:induction false} SpendRows(mem: Shared, th: Thread, c: Choice, op: LedgerOp)
    ensures WriteRow(mem, th, op).rows == mem.rows && Broadcast(mem, th, c).rows == mem.rows
  {
  }

  lemma {:induction false} AnyExpiry(mem: Shared, th: Thread, c: Choice)
    ensures ExpiryStep(mem, Change(mem, th, c), th, c)
  {
    if AtMutex(th.pc) {
      MutexExpiry(mem, th, c);
    } else if AtEnd(th.pc) {
      EndExpiry(mem, th, c);
    } else {
      SpendRows(mem, th, c, if th.pc.WriteLedger? then th.pc.op else Deduct);
    }
  }

  /** How a thread comes to write "expired", and that it stays with its row. */
  ghost predicate LookStep(th: Thread, th': Thread, c: Choice) {
    && th'.req == th.req && Faithful(th')
    && (AboutToExpire(th') ==> c.late && (th.req.Approve? || th.req.View?))
  }

  lemma {:induction false} MutexLook(mem: Shared, th: Thread, c: Choice)
    requires AtMutex(th.pc) && Shaped(th) && Faithful(th)
    ensures LookStep(th, MoveMutex(mem, th, c), c)
  {
  }

  lemma {:induction false} EndLook(th: Thread, c: Choice)
    requires AtEnd(th.pc) && Shaped(th) && Faithful(th)
    ensures LookStep(th, MoveEnd(th, c), c)
  {
  }

  lemma {:induction false} SpendLook(mem: Shared, th: Thread, c: Choice)
    requires Faithful(th) && !th.pc.Start? && !th.pc.Done?
    ensures LookStep(th, AfterBuild(mem, th, c), c) && LookStep(th, AfterQuote(th, c), c)
    ensures LookStep(th, AfterSend(th, c), c) && LookStep(th, AfterRefresh(mem, th, c), c)
  {
  }

  lemma {:induction false} LedgerLook(mem: Shared, th: Thread, op: LedgerOp, c: Choice)
    requires Faithful(th) && !th.pc.Start? && !th.pc.Done?
    ensures LookStep(th, AfterRead(mem, th, op), c) && LookStep(th, AfterWrite(th, op), c)
    ensures LookStep(th, th.(pc := AfterFree(th, op)), c)
  {
  }

  lemma {:induction false} AnyLook(mem: Shared, th: Thread, c: Choice)
    requires Shaped(th) && Faithful(th) && th.pc != Done
    ensures LookStep(th, Move(mem, th, c), c)
  {
    if AtMutex(th.pc) {
      MutexLook(mem, th, c);
    } else if AtEnd(th.pc) {
      EndLook(th, c);
    } else if InLedger(th.pc) {
      LedgerLook(mem, th, th.pc.op, c);
    } else if !th.pc.Start? {
      SpendLook(mem, th, c);
    }
  }

  // ----- every run -----

  lemma {:induction false} ExpiryInvStep(actions: seq<Action>, a: Action)
    requires ExpiryInv(actions) && a.Step? && Enabled(Run(actions), a.t)
    ensures ExpiryInv(actions + [a])
  {
    var s, all := Run(actions), actions + [a];
    var th := s.threads[a.t];
    assert all[..|all| - 1] == actions;
    var s' := Run(all);
    LockInvExec(s, a);
    AnyExpiry(s.mem, th, a.c);
    AnyLook(s.mem, th, a.c);
    forall id | ExpiredRow(s'.mem, id) ensures SeenLate(all, id) {
      if !ExpiredRow(s.mem, id) && !AboutToExpire(th) {
        assert SeesLate(s, a, id);
      }
    }
    forall t | 0 <= t < |s'.threads| && AboutToExpire(s'.threads[t]) ensures SeenLate(all, s'.threads[t].id) {
      if t == a.t {
        assert SeesLate(s, a, s'.threads[t].id);
      }
    }
  }

  lemma {:induction false} SeenStill(actions: seq<Action>, a: Action, id: nat)
    requires SeenLate(actions, id)
    ensures SeenLate(actions + [a], id)
  {
    assert (actions + [a])[..|actions|] == actions;
  }

  /** New requests, a new day, deleted rows, and steps nobody can take. */
  lemma {:induction false} ExpiryInvOther(actions: seq<Action>, a: Action)
    requires ExpiryInv(actions) && !(a.Step? && Enabled(Run(actions), a.t))
    ensures ExpiryInv(actions + [a])
  {
    var s, all := Run(actions), actions + [a];
    assert all[..|all| - 1] == actions;
    var s' := Run(all);
    LockInvExec(s, a);
    forall id | ExpiredRow(s'.mem, id) ensures SeenLate(all, id) {
      assert ExpiredRow(s.mem, id);
      SeenStill(actions, a, id);
    }
    forall t | 0 <= t < |s'.threads| && AboutToExpire(s'.threads[t]) ensures SeenLate(all, s'.threads[t].id) {
      SeenStill(actions, a, s'.threads[t].id);
    }
  }

  lemma {:induction false} ExpiryInvNext(actions: seq<Action>, a: Action)
    requires ExpiryInv(actions)
    ensures ExpiryInv(actions + [a])
  {
    if a.Step? && Enabled(Run(actions), a.t) {
      ExpiryInvStep(actions, a);
    } else {
      ExpiryInvOther(actions, a);
    }
  }

  lemma {:induction false} ExpiryInvNone()
    ensures ExpiryInv([])
  {
    LockInvRun([]);
  }

  lemma {:induction false} ExpiryInvRun(actions: seq<Action>)
    ensures ExpiryInv(actions)
  {
    if actions == [] {
      ExpiryInvNone();
    } else {
      var init, a := actions[..|actions| - 1], actions[|actions| - 1];
      ExpiryInvRun(init);
      ExpiryInvNext(init, a);
      assert init + [a] == actions;
    }
  }

  /** After every run a row that says "expired" is one whose time a request on it, or the expiry loop,
      saw run out. */
  lemma {:induction false} ExpiredWasLate(actions: seq<Action>, id: nat)
    requires id in Run(actions).mem.rows && Run(actions).mem.rows[id].status == Expired
    ensures SeenLate(actions, id)
  {
    ExpiryInvRun(actions);
    assert ExpiredRow(Run(actions).mem, id);
  }

  /** The expiry loop labels exactly the pending rows it finds late and leaves the others alone. */
  lemma {:induction false} SweepExactly(mem: Shared, c: Choice, id: nat)
    requires id in mem.rows
    ensures var mem' := Change(mem, Spawned(Sweep), c);
      id in mem'.rows
      && mem'.rows[id] == if IsPending(mem, id) && id in c.lateIds then mem.rows[id].(status := Expired) else mem.rows[id]
  {
  }
}
