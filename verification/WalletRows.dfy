/** What an approval row says, under every interleaving (handler/approval.go, handler/wallet.go).

    A row that spends carries the wallet and amount of a request that had to ask; the thread that
    approves it spends just that; and the labels "approved" and "rejected" are never written without
    the effect they report. */
module WalletRows {
  import opened WalletModel
  import opened WalletLocks
  import opened WalletGate
  import opened WalletApproval

  // ----- rows -----

  ghost predicate Happened(mem: Shared, id: nat) {
    Applied(id) in mem.effects || Attempted(id, true) in mem.effects
  }

  /** A label is backed by the effect it reports. */
  ghost predicate Backed(mem: Shared, id: nat, st: Status) {
    (st == Approved ==> Happened(mem, id)) && (st == Rejected ==> Refused(id) in mem.effects)
  }

  /** Some request had to ask for exactly this spend. */
  ghost predicate AskedFor(threads: seq<Thread>, row: Row) {
    exists t :: 0 <= t < |threads| && AsksFor(threads[t], row)
  }

  predicate AsksFor(th: Thread, row: Row) {
    Own(th) && MustAsk(th.req) && th.req.wallet == row.wallet && th.req.amount == row.amount
  }

  /** A settings proposal carries no spend. */
  predicate Same(row: Row, row': Row) {
    row'.config == row.config && row'.wallet == row.wallet && row'.amount == row.amount
  }

  ghost predicate RowsOk(s: State) {
    forall id :: id in s.mem.rows ==>
      && id in s.mem.used && Backed(s.mem, id, s.mem.rows[id].status)
      && (s.mem.rows[id].config || AskedFor(s.threads, s.mem.rows[id]))
  }

  // ----- threads -----

  /** An approving thread works on its row's own wallet and amount, and remembers success only after
      the effect. */
  ghost predicate ApproverOk(mem: Shared, th: Thread) {
    (th.req.Approve? && !th.pc.Start? && !th.pc.Done? ==>
      && th.id in mem.used
      && (th.id in mem.rows ==> Same(mem.rows[th.id], Row(Pending, th.config, th.wallet, th.amount)))
      && (th.succeeded ==> Happened(mem, th.id)))
    && (th.req.Approve? && th.pc.Start? ==> !th.succeeded)
    && (th.req.Propose? && th.pc.Create? ==> th.config)
  }

  ghost predicate RowInv(s: State) {
    && GateInv(s)
    && RowsOk(s)
    && forall t :: 0 <= t < |s.threads| ==> ApproverOk(s.mem, s.threads[t])
  }

  // ----- what one step does to the rows -----

  /** Effects only grow; a row keeps its content; its label changes only to one that is backed; a new
      row is pending and carries what its creator works on. */
  ghost predicate RowsStep(mem: Shared, mem': Shared, th: Thread) {
    && mem.effects <= mem'.effects && mem.used <= mem'.used
    && (forall id :: id in mem'.rows && id in mem.rows ==>
      Same(mem.rows[id], mem'.rows[id]) && Relabelled(mem', th, id, mem.rows[id].status, mem'.rows[id].status))
    && (forall id :: id in mem'.rows && id !in mem.rows ==>
      && id !in mem.used && id in mem'.used && th.pc.Create?
      && mem'.rows[id] == Row(Pending, th.config, th.wallet, th.amount))
  }

  /** How a step of `th` may change a label. */
  ghost predicate Relabelled(mem': Shared, th: Thread, id: nat, st: Status, st': Status) {
    || st' == st || st' == Expired || st' == Failed
    || (st' == Approved && th.pc.Resolve? && id == th.id && th.succeeded)
    || (st' == Rejected && Refused(id) in mem'.effects)
  }

  lemma {:induction false} StatusRows(mem: Shared, th: Thread, st: Status)
    requires st == Expired || st == Failed || (st == Approved && th.pc.Resolve? && th.succeeded)
    ensures RowsStep(mem, SetStatus(mem, th.id, st), th)
  {
  }

  lemma {:induction false} MutexRows(mem: Shared, th: Thread, c: Choice)
    requires AtMutex(th.pc) && (forall id :: id in mem.rows ==> id in mem.used)
    ensures RowsStep(mem, ChangeMutex(mem, th, c), th)
  {
    match th.pc
    case MarkExpired => StatusRows(mem, th, Expired);
    case RejectWrite => RejectRows(mem, th);
    case _ =>
  }

  lemma {:induction false} RejectRows(mem: Shared, th: Thread)
    ensures RowsStep(mem, Emit(SetStatus(mem, th.id, Rejected), Refused(th.id)), th)
  {
    var mem' := Emit(SetStatus(mem, th.id, Rejected), Refused(th.id));
    assert mem'.effects[|mem.effects|] == Refused(th.id);
  }

  lemma {:induction false} NewRows(mem: Shared, th: Thread, c: Choice)
    requires th.pc.Create? && (forall id :: id in mem.rows ==> id in mem.used)
    ensures RowsStep(mem, NewRow(mem, th, c), th)
  {
  }

  lemma {:induction false} EndRows(mem: Shared, th: Thread, c: Choice)
    requires AtEnd(th.pc) && (forall id :: id in mem.rows ==> id in mem.used)
    ensures RowsStep(mem, ChangeEnd(mem, th, c), th)
  {
    match th.pc
    case Resolve => StatusRows(mem, th, if th.succeeded then Approved else Failed);
    case Create => NewRows(mem, th, c);
    case ViewWrite => StatusRows(mem, th, Expired);
    case _ =>
  }

  lemma {:induction false} SameRows(mem: Shared, mem': Shared, th: Thread)
    requires mem'.rows == mem.rows && mem'.used == mem.used && mem.effects <= mem'.effects
    ensures RowsStep(mem, mem', th)
  {
  }

  lemma {:induction false} SpendRows(mem: Shared, th: Thread, c: Choice, op: LedgerOp)
    ensures var mem' := WriteRow(mem, th, op);
      mem'.rows == mem.rows && mem'.used == mem.used && mem.effects <= mem'.effects
    ensures var mem' := Broadcast(mem, th, c);
      mem'.rows == mem.rows && mem'.used == mem.used && mem.effects <= mem'.effects
  {
  }

  lemma {:induction false} SweepRows(mem: Shared, th: Thread, late: set<nat>)
    ensures RowsStep(mem, mem.(rows := ExpireRows(mem.rows, late)), th)
  {
  }

  lemma {:induction false} ChangeRows(mem: Shared, th: Thread, c: Choice)
    requires forall id :: id in mem.rows ==> id in mem.used
    ensures RowsStep(mem, Change(mem, th, c), th)
  {
    if AtMutex(th.pc) {
      MutexRows(mem, th, c);
    } else if AtEnd(th.pc) {
      EndRows(mem, th, c);
    } else if th.pc.Start? {
      SweepRows(mem, th, c.lateIds);
    } else {
      SpendRows(mem, th, c, if th.pc.WriteLedger? then th.pc.op else Deduct);
      SameRows(mem, Change(mem, th, c), th);
    }
  }

  // ----- what one step does to the approving thread -----

  /** The row it works on does not change under its hands; success comes with the effect. */
  ghost predicate ApproverStep(mem: Shared, mem': Shared, th: Thread, th': Thread) {
    th.req.Approve? && !th'.pc.Done? ==>
      && (!th.pc.Start? ==> th'.id == th.id && th'.config == th.config && th'.wallet == th.wallet && th'.amount == th.amount)
      && (th.pc.Start? ==> th'.id in mem.rows && !th'.succeeded)
      && (th.pc.Start? && th'.id in mem.rows ==> Same(mem.rows[th'.id], Row(Pending, th'.config, th'.wallet, th'.amount)))
      && (th'.succeeded && !th.succeeded ==> Happened(mem', th'.id))
  }

  lemma {:induction false} ApproverBegin(mem: Shared, mem': Shared, th: Thread, c: Choice)
    requires th.req.Approve? && th.pc.Start? && !th.succeeded
    ensures ApproverStep(mem, mem', th, Begin(mem, th, c))
  {
  }

  lemma {:induction false} ApproverMutex(mem: Shared, th: Thread, c: Choice)
    requires th.req.Approve? && AtMutex(th.pc)
    ensures ApproverStep(mem, ChangeMutex(mem, th, c), th, MoveMutex(mem, th, c))
  {
    if th.pc.Past? && c.ok && th.config {
      assert ChangeMutex(mem, th, c).effects[|mem.effects|] == Applied(th.id);
    }
  }

  lemma {:induction false} ApproverEnd(mem: Shared, mem': Shared, th: Thread, c: Choice)
    requires th.req.Approve? && AtEnd(th.pc)
    ensures ApproverStep(mem, mem', th, MoveEnd(th, c))
  {
  }

  lemma {:induction false} ApproverSend(mem: Shared, th: Thread, c: Choice)
    requires th.req.Approve? && th.pc.Send?
    ensures ApproverStep(mem, Broadcast(mem, th, c), th, AfterSend(th, c))
  {
    if c.ok {
      assert Emit(mem, Attempted(th.id, true)).effects[|mem.effects|] == Attempted(th.id, true);
    }
  }

  lemma {:induction false} ApproverSpend(mem: Shared, mem': Shared, th: Thread, c: Choice)
    requires th.req.Approve? && !th.pc.Start?
    ensures ApproverStep(mem, mem', th, AfterBuild(mem, th, c))
    ensures ApproverStep(mem, mem', th, AfterQuote(th, c))
    ensures ApproverStep(mem, mem', th, AfterRefresh(mem, th, c))
  {
  }

  lemma {:induction false} ApproverLedger(mem: Shared, mem': Shared, th: Thread, op: LedgerOp)
    requires th.req.Approve? && !th.pc.Start?
    ensures ApproverStep(mem, mem', th, AfterRead(mem, th, op))
    ensures ApproverStep(mem, mem', th, AfterWrite(th, op))
    ensures ApproverStep(mem, mem', th, th.(pc := AfterFree(th, op)))
  {
  }

  lemma {:induction false} ApproverMove(mem: Shared, th: Thread, c: Choice)
    requires th.req.Approve? && th.pc != Done && (th.pc.Start? ==> !th.succeeded)
    ensures ApproverStep(mem, Change(mem, th, c), th, Move(mem, th, c))
  {
    var mem' := Change(mem, th, c);
    if AtMutex(th.pc) {
      ApproverMutex(mem, th, c);
    } else if AtEnd(th.pc) {
      ApproverEnd(mem, mem', th, c);
    } else if InLedger(th.pc) {
      ApproverLedger(mem, mem', th, th.pc.op);
    } else {
      match th.pc
      case Start => ApproverBegin(mem, mem', th, c);
      case Send => ApproverSend(mem, th, c);
      case Build => ApproverSpend(mem, mem', th, c);
      case Quote => ApproverSpend(mem, mem', th, c);
      case Refresh => ApproverSpend(mem, mem', th, c);
      case _ =>
    }
  }

  // ----- runs -----

  ghost predicate SameRequests(threads: seq<Thread>, threads': seq<Thread>) {
    |threads| <= |threads'| && forall t :: 0 <= t < |threads| ==> threads'[t].req == threads[t].req
  }

  lemma {:induction false} StillAsked(threads: seq<Thread>, threads': seq<Thread>, row: Row)
    requires AskedFor(threads, row) && SameRequests(threads, threads')
    ensures AskedFor(threads', row)
  {
    var t :| 0 <= t < |threads| && AsksFor(threads[t], row);
    assert AsksFor(threads'[t], row);
  }

  lemma {:induction false} StillAskedAll(threads: seq<Thread>, threads': seq<Thread>)
    requires SameRequests(threads, threads')
    ensures forall row :: AskedFor(threads, row) ==> AskedFor(threads', row)
  {
    forall row | AskedFor(threads, row) ensures AskedFor(threads', row) {
      StillAsked(threads, threads', row);
    }
  }

  lemma {:induction false} StillBacked(mem: Shared, mem': Shared, id: nat, st: Status)
    requires mem.effects <= mem'.effects && Backed(mem, id, st)
    ensures Backed(mem', id, st)
  {
    assert mem'.effects == mem.effects + mem'.effects[|mem.effects|..];
  }

  lemma {:induction false} RowsAfter(s: State, s': State, t: nat, c: Choice)
    requires RowInv(s) && t < |s.threads| && s.threads[t].pc != Done
    requires s'.mem == Change(s.mem, s.threads[t], c) && SameRequests(s.threads, s'.threads)
    ensures RowsOk(s')
  {
    var th := s.threads[t];
    assert Gated(th) && ApproverOk(s.mem, th) && Shaped(th);
    ChangeRows(s.mem, th, c);
    StillAskedAll(s.threads, s'.threads);
    forall id | id in s'.mem.rows
      ensures id in s'.mem.used && Backed(s'.mem, id, s'.mem.rows[id].status)
      ensures s'.mem.rows[id].config || AskedFor(s'.threads, s'.mem.rows[id])
    {
      if id in s.mem.rows {
        OldRow(s, s', th, id);
      } else {
        CreatedRow(s, t, s'.mem.rows[id]);
      }
    }
  }

  lemma {:induction false} OldRow(s: State, s': State, th: Thread, id: nat)
    requires RowsOk(s) && id in s.mem.rows && id in s'.mem.rows && RowsStep(s.mem, s'.mem, th)
    requires Shaped(th) && ApproverOk(s.mem, th)
    requires forall row :: AskedFor(s.threads, row) ==> AskedFor(s'.threads, row)
    ensures id in s'.mem.used && Backed(s'.mem, id, s'.mem.rows[id].status)
    ensures s'.mem.rows[id].config || AskedFor(s'.threads, s'.mem.rows[id])
  {
    StillBacked(s.mem, s'.mem, id, s.mem.rows[id].status);
    if th.req.Approve? && th.pc.Resolve? && th.succeeded {
      StillBacked(s.mem, s'.mem, th.id, Approved);
    }
    if !s.mem.rows[id].config {
      SameAsked(s.threads, s.mem.rows[id], s'.mem.rows[id]);
    }
  }

  lemma {:induction false} SameAsked(threads: seq<Thread>, row: Row, row': Row)
    requires AskedFor(threads, row) && Same(row, row')
    ensures AskedFor(threads, row')
  {
    var t :| 0 <= t < |threads| && AsksFor(threads[t], row);
    assert AsksFor(threads[t], row');
  }

  lemma {:induction false} CreatedRow(s: State, t: nat, row: Row)
    requires t < |s.threads| && s.threads[t].pc.Create? && Shaped(s.threads[t]) && Gated(s.threads[t])
    requires s.threads[t].req.Propose? ==> s.threads[t].config
    requires row == Row(Pending, s.threads[t].config, s.threads[t].wallet, s.threads[t].amount)
    ensures row.config || AskedFor(s.threads, row)
  {
    if !row.config {
      assert AsksFor(s.threads[t], row);
    }
  }

  lemma {:induction false} HappenedStill(mem: Shared, mem': Shared, id: nat)
    requires mem.effects <= mem'.effects && Happened(mem, id)
    ensures Happened(mem', id)
  {
    assert mem'.effects == mem.effects + mem'.effects[|mem.effects|..];
  }

  /** A thread that does not move keeps working on the same row. */
  lemma {:induction false} IdleOk(mem: Shared, mem': Shared, mover: Thread, th: Thread)
    requires ApproverOk(mem, th) && RowsStep(mem, mem', mover)
    ensures ApproverOk(mem', th)
  {
    if Happened(mem, th.id) {
      HappenedStill(mem, mem', th.id);
    }
  }

  lemma {:induction false} ProposeMove(mem: Shared, th: Thread, c: Choice)
    requires th.req.Propose? && Shaped(th) && th.pc != Done
    ensures Move(mem, th, c).pc.Create? ==> Move(mem, th, c).config
  {
  }

  /** The thread that moves. */
  lemma {:induction false} MoverOk(mem: Shared, th: Thread, c: Choice)
    requires ApproverOk(mem, th) && Shaped(th) && th.pc != Done && (forall id :: id in mem.rows ==> id in mem.used)
    ensures ApproverOk(Change(mem, th, c), Move(mem, th, c))
  {
    var mem', th' := Change(mem, th, c), Move(mem, th, c);
    OngoingMove(mem, th, c);
    ChangeRows(mem, th, c);
    if th.req.Approve? {
      ApproverMove(mem, th, c);
      ApproverAfter(mem, mem', th, th');
    } else if th.req.Propose? {
      ProposeMove(mem, th, c);
    }
  }

  lemma {:induction false} ApproverAfter(mem: Shared, mem': Shared, th: Thread, th': Thread)
    requires th.req.Approve? && ApproverOk(mem, th) && RowsStep(mem, mem', th) && ApproverStep(mem, mem', th, th')
    requires th'.req == th.req && !th'.pc.Start? && !th.pc.Done? && (forall id :: id in mem.rows ==> id in mem.used)
    ensures ApproverOk(mem', th')
  {
    if Happened(mem, th.id) {
      HappenedStill(mem, mem', th.id);
    }
  }

  lemma {:induction false} RowInvStep(s: State, t: nat, c: Choice)
    requires RowInv(s) && Enabled(s, t)
    ensures RowInv(Exec(s, Step(t, c)))
  {
    var s', th := Exec(s, Step(t, c)), s.threads[t];
    GateExec(s, Step(t, c));
    OngoingMove(s.mem, th, c);
    ChangeRows(s.mem, th, c);
    RowsAfter(s, s', t, c);
    forall u | 0 <= u < |s'.threads| ensures ApproverOk(s'.mem, s'.threads[u]) {
      if u == t {
        MoverOk(s.mem, th, c);
      } else {
        IdleOk(s.mem, s'.mem, th, s.threads[u]);
      }
    }
  }

  lemma {:induction false} RowInvOther(s: State, a: Action)
    requires RowInv(s) && !a.Step?
    ensures RowInv(Exec(s, a))
  {
    var s' := Exec(s, a);
    GateExec(s, a);
    StillAskedAll(s.threads, s'.threads);
    forall id | id in s'.mem.rows ensures Backed(s'.mem, id, s'.mem.rows[id].status) {
      assert Backed(s.mem, id, s.mem.rows[id].status);
    }
    forall u | 0 <= u < |s'.threads| ensures ApproverOk(s'.mem, s'.threads[u]) {
      if u < |s.threads| {
        assert ApproverOk(s.mem, s.threads[u]);
      }
    }
  }

  lemma {:induction false} RowInvRun(actions: seq<Action>)
    ensures RowInv(Run(actions))
  {
    if actions == [] {
      GateRun([]);
    } else {
      var s, a := Run(actions[..|actions| - 1]), actions[|actions| - 1];
      RowInvRun(actions[..|actions| - 1]);
      if a.Step? {
        if Enabled(s, a.t) {
          RowInvStep(s, a.t, a.c);
        }
      } else {
        RowInvOther(s, a);
      }
    }
  }

  // ----- what the rows say -----

  /** After every run a row that spends carries the wallet and the amount of a request that had to ask. */
  lemma {:induction false} RowsWereAsked(actions: seq<Action>, id: nat) returns (t: nat)
    requires id in Run(actions).mem.rows && !Run(actions).mem.rows[id].config
    ensures t < |Run(actions).threads| && Own(Run(actions).threads[t]) && MustAsk(Run(actions).threads[t].req)
    ensures Run(actions).threads[t].req.wallet == Run(actions).mem.rows[id].wallet
    ensures Run(actions).threads[t].req.amount == Run(actions).mem.rows[id].amount
  {
    RowInvRun(actions);
    var s := Run(actions);
    assert AskedFor(s.threads, s.mem.rows[id]);
    t :| 0 <= t < |s.threads| && AsksFor(s.threads[t], s.mem.rows[id]);
  }

  /** After every run a thread that is about to broadcast an approved spend works on its row's own
      wallet and amount. */
  lemma {:induction false} ApprovedSpendIsRow(actions: seq<Action>, t: nat)
    requires t < |Run(actions).threads| && Run(actions).threads[t].req.Approve? && Run(actions).threads[t].pc.Send?
    requires Run(actions).threads[t].id in Run(actions).mem.rows
    ensures var th, row := Run(actions).threads[t], Run(actions).mem.rows[Run(actions).threads[t].id];
      th.wallet == row.wallet && th.amount == row.amount
  {
    RowInvRun(actions);
    assert ApproverOk(Run(actions).mem, Run(actions).threads[t]);
  }

  /** After every run, "approved" means that the row's transaction was accepted by the node or its
      settings were applied, and "rejected" that it was refused and that neither was even tried. */
  lemma {:induction false} LabelsTellTheTruth(actions: seq<Action>, id: nat)
    requires id in Run(actions).mem.rows
    ensures var mem := Run(actions).mem;
      && (mem.rows[id].status == Approved ==> Applied(id) in mem.effects || Attempted(id, true) in mem.effects)
      && (mem.rows[id].status == Rejected ==>
        && Refused(id) in mem.effects && Applied(id) !in mem.effects
        && Attempted(id, true) !in mem.effects && Attempted(id, false) !in mem.effects)
  {
    RowInvRun(actions);
    var mem := Run(actions).mem;
    assert Backed(mem, id, mem.rows[id].status);
    if mem.rows[id].status == Rejected {
      var i :| 0 <= i < |mem.effects| && mem.effects[i] == Refused(id);
      forall j | 0 <= j < |mem.effects| && IdOf(mem.effects[j]) == id ensures j == i {
        if i < j {
          AtMostOneEffect(actions, i, j);
        } else if j < i {
          AtMostOneEffect(actions, j, i);
        }
      }
    }
  }

  /** The decision under the approval mutex: a row that is not pending is left alone, a pending one
      that is past its expiry expires, and only a pending row within its time goes further. */
  lemma {:induction false} CheckDecides(mem: Shared, th: Thread, c: Choice)
    requires th.pc.Check? && th.req.Approve?
    ensures Move(mem, th, c).pc.Past? <==> IsPending(mem, th.id) && !c.late
    ensures Move(mem, th, c).pc.MarkExpired? <==> IsPending(mem, th.id) && c.late
    ensures Move(mem, th, c).pc.FreeMutex? <==> !IsPending(mem, th.id)
    ensures Change(mem, th, c) == mem
  {
  }
}
