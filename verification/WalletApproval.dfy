/** Every approval row takes effect at most once, under every interleaving.

    Mutexes are looked up in a map that a garbage collector prunes while they may be held, so two
    requests for one row can hold different mutexes at the same time.  The argument is that a mutex
    disappears from the map only after its row has left "pending", and a row never returns there. */
module WalletApproval {
  import opened WalletModel
  import opened WalletLocks

  function IdOf(e: Effect): nat {
    match e
    case Attempted(id, _) => id
    case Applied(id) => id
    case Refused(id) => id
  }

  /** Past the "pending" check, nothing done yet. */
  predicate Committed(th: Thread) {
    (th.req.Reject? && th.pc.RejectWrite?)
    || (th.req.Approve? && (th.pc.Past? || th.pc.WaitAddr? || th.pc.Build? || th.pc.Quote? || th.pc.Send?
          || (InLedger(th.pc) && th.pc.op == Deduct)))
  }

  /** Done with the outside world, about to write the final status. */
  predicate Resolving(th: Thread) {
    th.req.Approve? && (th.pc.Resolve? || (InLedger(th.pc) && th.pc.op == Refund))
  }

  predicate PastCheck(th: Thread) { Committed(th) || Resolving(th) }

  /** The thread has looked its mutex up. */
  predicate HasRef(th: Thread) { Approving(th) && (th.pc.WaitMutex? || HoldsMutex(th)) }

  predicate Current(mem: Shared, th: Thread) { th.id in mem.mutexOf && mem.mutexOf[th.id] == th.gen }

  /** The thread refers to a row by id. */
  predicate Named(th: Thread) {
    (Approving(th) || th.req.View? || th.req.Collect?) && !th.pc.Start? && !th.pc.Done?
  }

  ghost predicate Mentioned(mem: Shared, id: nat) {
    exists i :: 0 <= i < |mem.effects| && IdOf(mem.effects[i]) == id
  }

  ghost predicate BeingResolved(s: State, id: nat) {
    exists t :: 0 <= t < |s.threads| && Resolving(s.threads[t]) && s.threads[t].id == id
  }

  // ----- what one step does, locally -----

  /** Rows leave "pending" and never come back; new rows have unused ids; the mutex map changes only
      by a lookup that finds nothing and by the garbage collector. */
  ghost predicate MemStep(mem: Shared, mem': Shared, th: Thread) {
    && mem.used <= mem'.used
    && (forall id :: IsPending(mem', id) ==> IsPending(mem, id) || id !in mem.used)
    && (forall id :: id in mem'.rows ==> id in mem.rows || id in mem'.used)
    && (mem'.mutexOf == mem.mutexOf
        || (th.pc.GetMutex? && th.id !in mem.mutexOf && mem'.mutexOf == mem.mutexOf[th.id := mem.next])
        || (th.pc.CollectDelete? && mem'.mutexOf == mem.mutexOf - {th.id}))
  }

  lemma {:induction false} StatusChange(mem: Shared, th: Thread, st: Status)
    requires st != Pending
    ensures MemStep(mem, SetStatus(mem, th.id, st), th) && !IsPending(SetStatus(mem, th.id, st), th.id)
  {
  }

  lemma {:induction false} MutexChange(mem: Shared, th: Thread, c: Choice)
    requires AtMutex(th.pc)
    ensures MemStep(mem, ChangeMutex(mem, th, c), th)
  {
    StatusChange(mem, th, Expired);
    StatusChange(mem, th, Rejected);
  }

  lemma {:induction false} EndChange(mem: Shared, th: Thread, c: Choice)
    requires AtEnd(th.pc)
    ensures MemStep(mem, ChangeEnd(mem, th, c), th)
  {
    StatusChange(mem, th, Expired);
    StatusChange(mem, th, Approved);
    StatusChange(mem, th, Failed);
  }

  lemma {:induction false} LedgerChange(mem: Shared, th: Thread, op: LedgerOp)
    ensures MemStep(mem, WriteRow(mem, th, op), th)
  {
  }

  lemma {:induction false} BroadcastChange(mem: Shared, th: Thread, c: Choice)
    ensures MemStep(mem, Broadcast(mem, th, c), th)
  {
  }

  lemma {:induction false} MemChange(mem: Shared, th: Thread, c: Choice)
    ensures MemStep(mem, Change(mem, th, c), th)
  {
    if AtMutex(th.pc) {
      MutexChange(mem, th, c);
    } else if AtEnd(th.pc) {
      EndChange(mem, th, c);
    } else {
      LedgerChange(mem, th, if th.pc.WriteLedger? then th.pc.op else Deduct);
      BroadcastChange(mem, th, c);
    }
  }

  /** An effect is logged only by a committed thread, which then owes the row its final status. */
  ghost predicate EffectStep(mem: Shared, mem': Shared, th: Thread, th': Thread) {
    mem'.effects == mem.effects
    || (Committed(th) && !Committed(th') && (Resolving(th') || !IsPending(mem', th.id))
        && |mem'.effects| == |mem.effects| + 1 && mem'.effects[..|mem.effects|] == mem.effects
        && IdOf(mem'.effects[|mem.effects|]) == th.id)
  }

  /** How a thread becomes committed or resolving, and how it stops resolving. */
  ghost predicate PhaseStep(mem: Shared, mem': Shared, th: Thread, th': Thread) {
    && (Committed(th') ==>
         th'.id == th.id && (Committed(th) || (th.pc.Check? && HoldsMutex(th) && IsPending(mem, th.id))))
    && (Resolving(th') ==> th'.id == th.id && PastCheck(th))
    && (Resolving(th) && !Resolving(th') ==> !IsPending(mem', th.id))
    && (th'.pc.CollectDelete? ==> !IsPending(mem, th'.id))
  }

  /** Where mutex references and row names come from. */
  ghost predicate NameStep(mem: Shared, mem': Shared, th: Thread, th': Thread) {
    && (HasRef(th') ==>
         th'.id == th.id && ((HasRef(th) && th'.gen == th.gen) || (th.pc.GetMutex? && Current(mem', th'))))
    && (Named(th') ==> (Named(th) && th'.id == th.id) || th'.id in mem.rows || th'.id in mem.mutexOf)
  }

  ghost predicate ApprovalStep(mem: Shared, mem': Shared, th: Thread, th': Thread) {
    EffectStep(mem, mem', th, th') && PhaseStep(mem, mem', th, th') && NameStep(mem, mem', th, th')
  }

  lemma {:induction false} BeginStep(mem: Shared, th: Thread, c: Choice)
    requires Shaped(th) && th.pc.Start?
    ensures ApprovalStep(mem, mem, th, Begin(mem, th, c))
    ensures ApprovalStep(mem, mem.(rows := ExpireRows(mem.rows, c.lateIds)), th, Begin(mem, th, c))
  {
    Begun(mem, th, c);
  }

  lemma {:induction false} Begun(mem: Shared, th: Thread, c: Choice)
    requires th.pc.Start?
    ensures var th' := Begin(mem, th, c);
      && !HasRef(th') && !PastCheck(th')
      && (Named(th') ==> th'.id in mem.rows || th'.id in mem.mutexOf)
      && (th'.pc.CollectDelete? ==> !IsPending(mem, th'.id))
  {
  }

  lemma {:induction false} MutexStep(mem: Shared, th: Thread, c: Choice)
    requires Shaped(th) && AtMutex(th.pc)
    ensures ApprovalStep(mem, ChangeMutex(mem, th, c), th, MoveMutex(mem, th, c))
  {
    if th.pc.RejectWrite? || th.pc.Past? {
      DecideStep(mem, th, c);
    }
  }

  lemma {:induction false} DecideStep(mem: Shared, th: Thread, c: Choice)
    requires Shaped(th) && (th.pc.RejectWrite? || th.pc.Past?)
    ensures ApprovalStep(mem, ChangeMutex(mem, th, c), th, MoveMutex(mem, th, c))
  {
  }

  lemma {:induction false} ReadStep(mem: Shared, th: Thread)
    requires Shaped(th) && th.pc.ReadLedger?
    ensures ApprovalStep(mem, mem, th, AfterRead(mem, th, th.pc.op))
  {
  }

  lemma {:induction false} WriteStep(mem: Shared, th: Thread)
    requires Shaped(th) && th.pc.WriteLedger?
    ensures ApprovalStep(mem, WriteRow(mem, th, th.pc.op), th, AfterWrite(th, th.pc.op))
  {
  }

  lemma {:induction false} SendStep(mem: Shared, th: Thread, c: Choice)
    requires Shaped(th) && th.pc.Send?
    ensures ApprovalStep(mem, Broadcast(mem, th, c), th, AfterSend(th, c))
  {
  }

  lemma {:induction false} RefreshStep(mem: Shared, th: Thread, c: Choice)
    requires Shaped(th) && th.pc.Refresh?
    ensures ApprovalStep(mem, mem, th, AfterRefresh(mem, th, c))
  {
  }

  lemma {:induction false} EndStep(mem: Shared, th: Thread, c: Choice)
    requires Shaped(th) && AtEnd(th.pc)
    ensures ApprovalStep(mem, ChangeEnd(mem, th, c), th, MoveEnd(th, c))
  {
  }

  lemma {:induction false} StepAny(mem: Shared, th: Thread, c: Choice)
    requires Shaped(th) && th.pc != Done
    ensures ApprovalStep(mem, Change(mem, th, c), th, Move(mem, th, c))
  {
    if AtMutex(th.pc) {
      MutexStep(mem, th, c);
    } else if AtEnd(th.pc) {
      EndStep(mem, th, c);
    } else {
      match th.pc
      case Start => BeginStep(mem, th, c);
      case Build =>
      case Quote =>
      case ReadLedger(_) => ReadStep(mem, th);
      case WriteLedger(_) => WriteStep(mem, th);
      case FreeShard(_) =>
      case Send => SendStep(mem, th, c);
      case Refresh => RefreshStep(mem, th, c);
      case _ =>
    }
  }

  // ----- the invariant over all threads -----

  /** A thread whose mutex is no longer the one in the map works on a row that is not pending. */
  ghost predicate RefsInv(s: State) {
    && (forall t :: 0 <= t < |s.threads| && HasRef(s.threads[t]) && IsPending(s.mem, s.threads[t].id) ==> Current(s.mem, s.threads[t]))
    && (forall t :: 0 <= t < |s.threads| && s.threads[t].pc.CollectDelete? ==> !IsPending(s.mem, s.threads[t].id))
  }

  /** Ids in use are never handed out again. */
  ghost predicate UsedInv(s: State) {
    && (forall id :: id in s.mem.rows ==> id in s.mem.used)
    && (forall id :: id in s.mem.mutexOf ==> id in s.mem.used)
    && (forall t :: 0 <= t < |s.threads| && Named(s.threads[t]) ==> s.threads[t].id in s.mem.used)
    && (forall i :: 0 <= i < |s.mem.effects| ==> IdOf(s.mem.effects[i]) in s.mem.used)
  }

  /** At most one thread per row is past the "pending" check. */
  ghost predicate SoleInv(s: State) {
    forall t, u | 0 <= t < |s.threads| && 0 <= u < |s.threads| && PastCheck(s.threads[t]) && PastCheck(s.threads[u]) ::
      s.threads[t].id == s.threads[u].id ==> t == u
  }

  /** No row has two effects; a committed thread's row has none yet; a row with an effect is not
      pending unless the thread that owes it a status is still on the way. */
  ghost predicate OnceInv(s: State) {
    && (forall i, j :: 0 <= i < j < |s.mem.effects| ==> IdOf(s.mem.effects[i]) != IdOf(s.mem.effects[j]))
    && (forall t :: 0 <= t < |s.threads| && Committed(s.threads[t]) ==> !Mentioned(s.mem, s.threads[t].id))
    && (forall id :: Mentioned(s.mem, id) && IsPending(s.mem, id) ==> BeingResolved(s, id))
  }

  ghost predicate ApprovalInv(s: State) {
    LockInv(s) && RefsInv(s) && UsedInv(s) && SoleInv(s) && OnceInv(s)
  }

  /** Two threads on one pending row, both with its mutex, are the same thread. */
  lemma {:induction false} SameMutex(s: State, t: nat, u: nat)
    requires LockInv(s) && RefsInv(s) && t < |s.threads| && u < |s.threads|
    requires HoldsMutex(s.threads[t]) && HoldsMutex(s.threads[u])
    requires s.threads[t].id == s.threads[u].id && IsPending(s.mem, s.threads[t].id)
    ensures t == u
  {
    var th, thu := s.threads[t], s.threads[u];
    assert Current(s.mem, th) && Current(s.mem, thu);
    Exclusive(s, t, u, ApprovalLock(th.id, th.gen));
  }

  /** One thread moved; the rest of the threads stayed. */
  ghost predicate Moved(s: State, s': State, t: nat) {
    && t < |s.threads| && |s'.threads| == |s.threads|
    && (forall u :: 0 <= u < |s.threads| && u != t ==> s'.threads[u] == s.threads[u])
    && ApprovalStep(s.mem, s'.mem, s.threads[t], s'.threads[t])
    && MemStep(s.mem, s'.mem, s.threads[t])
  }

  lemma {:induction false} RefsStep(s: State, s': State, t: nat)
    requires LockInv(s) && LockInv(s') && RefsInv(s) && UsedInv(s) && Moved(s, s', t)
    ensures RefsInv(s')
  {
    var th := s.threads[t];
    forall u | 0 <= u < |s'.threads| && s'.threads[u].pc.CollectDelete? ensures !IsPending(s'.mem, s'.threads[u].id) {
      assert Shaped(s'.threads[u]) && Named(s'.threads[u]);
    }
    forall u | 0 <= u < |s'.threads| && HasRef(s'.threads[u]) && IsPending(s'.mem, s'.threads[u].id)
      ensures Current(s'.mem, s'.threads[u])
    {
      if u != t {
        assert HasRef(s.threads[u]) && Named(s.threads[u]);
      } else {
        assert HasRef(th) ==> Named(th);
      }
    }
  }

  lemma {:induction false} SoleNewcomer(s: State, s': State, t: nat, u: nat)
    requires LockInv(s) && RefsInv(s) && SoleInv(s) && Moved(s, s', t)
    requires u < |s.threads| && PastCheck(s.threads[u])
    requires PastCheck(s'.threads[t]) && s'.threads[t].id == s.threads[u].id
    ensures t == u
  {
    if !PastCheck(s.threads[t]) {
      SameMutex(s, t, u);
    }
  }

  lemma {:induction false} SoleStep(s: State, s': State, t: nat)
    requires LockInv(s) && RefsInv(s) && SoleInv(s) && Moved(s, s', t)
    ensures SoleInv(s')
  {
    forall u, v | 0 <= u < |s'.threads| && 0 <= v < |s'.threads| && PastCheck(s'.threads[u]) && PastCheck(s'.threads[v])
      && s'.threads[u].id == s'.threads[v].id
      ensures u == v
    {
      if u == t && v != t {
        SoleNewcomer(s, s', t, v);
      } else if v == t && u != t {
        SoleNewcomer(s, s', t, u);
      }
    }
  }

  /** A thread that has just become committed found its row pending, so the row has no effect yet. */
  lemma {:induction false} NewlyCommitted(s: State, s': State, t: nat)
    requires LockInv(s) && RefsInv(s) && SoleInv(s) && OnceInv(s) && Moved(s, s', t)
    requires Committed(s'.threads[t])
    ensures s'.threads[t].id == s.threads[t].id && !Mentioned(s.mem, s.threads[t].id)
  {
    var th := s.threads[t];
    if !Committed(th) && Mentioned(s.mem, th.id) {
      var u :| 0 <= u < |s.threads| && Resolving(s.threads[u]) && s.threads[u].id == th.id;
      SoleNewcomer(s, s', t, u);
    }
  }

  lemma {:induction false} CommittedStep(s: State, s': State, t: nat, u: nat)
    requires LockInv(s) && RefsInv(s) && SoleInv(s) && OnceInv(s) && Moved(s, s', t)
    requires u < |s'.threads| && Committed(s'.threads[u])
    ensures !Mentioned(s'.mem, s'.threads[u].id)
  {
    var id := s'.threads[u].id;
    if u == t {
      NewlyCommitted(s, s', t);
    } else {
      assert Committed(s.threads[u]);
      assert Committed(s.threads[t]) && s.threads[t].id == id ==> t == u;
    }
  }

  lemma {:induction false} OnceStep(s: State, s': State, t: nat)
    requires LockInv(s) && RefsInv(s) && UsedInv(s) && SoleInv(s) && OnceInv(s) && Moved(s, s', t)
    ensures OnceInv(s')
  {
    forall u | 0 <= u < |s'.threads| && Committed(s'.threads[u]) ensures !Mentioned(s'.mem, s'.threads[u].id) {
      CommittedStep(s, s', t, u);
    }
    forall id | Mentioned(s'.mem, id) && IsPending(s'.mem, id) ensures BeingResolved(s', id) {
    }
  }

  // ----- every action, every run -----

  lemma {:induction false} Idle(req: Request)
    ensures var th := Spawned(req); !HasRef(th) && !Named(th) && !PastCheck(th) && !th.pc.CollectDelete?
  {
  }

  lemma {:induction false} ArriveKeeps(s: State, req: Request)
    requires ApprovalInv(s)
    ensures ApprovalInv(Exec(s, Arrive(req)))
  {
    var s' := Exec(s, Arrive(req));
    LockInvExec(s, Arrive(req));
    Idle(req);
    assert s'.mem == s.mem;
    assert forall t :: 0 <= t < |s.threads| ==> s'.threads[t] == s.threads[t];
    forall id | Mentioned(s'.mem, id) && IsPending(s'.mem, id) ensures BeingResolved(s', id) {
      var u :| 0 <= u < |s.threads| && Resolving(s.threads[u]) && s.threads[u].id == id;
      assert s'.threads[u] == s.threads[u];
    }
  }

  lemma {:induction false} DeleteKeeps(s: State, id: nat)
    requires ApprovalInv(s)
    ensures ApprovalInv(Exec(s, DeleteRow(id)))
  {
    var s' := Exec(s, DeleteRow(id));
    LockInvExec(s, DeleteRow(id));
    assert forall i :: IsPending(s'.mem, i) ==> IsPending(s.mem, i);
    forall i | Mentioned(s'.mem, i) && IsPending(s'.mem, i) ensures BeingResolved(s', i) {
      assert Mentioned(s.mem, i);
      var u :| 0 <= u < |s.threads| && Resolving(s.threads[u]) && s.threads[u].id == i;
      assert s'.threads[u] == s.threads[u];
    }
  }

  lemma {:induction false} StepKeeps(s: State, t: nat, c: Choice)
    requires ApprovalInv(s) && Enabled(s, t)
    ensures ApprovalInv(Exec(s, Step(t, c)))
  {
    var s' := Exec(s, Step(t, c));
    LockInvExec(s, Step(t, c));
    StepAny(s.mem, s.threads[t], c);
    MemChange(s.mem, s.threads[t], c);
    assert Moved(s, s', t);
    RefsStep(s, s', t);
    SoleStep(s, s', t);
    OnceStep(s, s', t);
  }

  lemma {:induction false} NextDayKeeps(s: State)
    requires ApprovalInv(s)
    ensures ApprovalInv(Exec(s, NextDay))
  {
    var s' := Exec(s, NextDay);
    LockInvExec(s, NextDay);
    forall id | Mentioned(s'.mem, id) && IsPending(s'.mem, id) ensures BeingResolved(s', id) {
      assert Mentioned(s.mem, id) && IsPending(s.mem, id);
      var u :| 0 <= u < |s.threads| && Resolving(s.threads[u]) && s.threads[u].id == id;
      assert s'.threads[u] == s.threads[u];
    }
  }

  /** The invariant holds after every run. */
  lemma {:induction false} ApprovalInvRun(actions: seq<Action>)
    ensures ApprovalInv(Run(actions))
  {
    if actions != [] {
      var s, a := Run(actions[..|actions| - 1]), actions[|actions| - 1];
      ApprovalInvRun(actions[..|actions| - 1]);
      match a
      case Step(t, c) => if Enabled(s, t) { StepKeeps(s, t, c); }
      case Arrive(req) => ArriveKeeps(s, req);
      case NextDay => NextDayKeeps(s);
      case DeleteRow(id) => DeleteKeeps(s, id);
    }
  }

  /** After every run: no two requests are past the "pending" check of the same row. */
  lemma {:induction false} OnePastCheck(actions: seq<Action>, t: nat, u: nat)
    requires t < |Run(actions).threads| && u < |Run(actions).threads|
    requires PastCheck(Run(actions).threads[t]) && PastCheck(Run(actions).threads[u])
    requires Run(actions).threads[t].id == Run(actions).threads[u].id
    ensures t == u
  {
    ApprovalInvRun(actions);
  }

  /** After every run: a row was broadcast, applied or rejected at most once in total, so it was
      never broadcast twice and never both rejected and broadcast. */
  lemma {:induction false} AtMostOneEffect(actions: seq<Action>, i: nat, j: nat)
    requires i < |Run(actions).mem.effects| && j < |Run(actions).mem.effects|
    requires IdOf(Run(actions).mem.effects[i]) == IdOf(Run(actions).mem.effects[j])
    ensures i == j
  {
    ApprovalInvRun(actions);
  }
}
