/** The approval gate under every interleaving (handler/wallet.go, handler/contract_call.go).

    Whatever else runs between a request's steps, it reaches the signer on its own only if the gate
    let it: the price was known where that matters, the amount was within the threshold, and the
    reservation the policy asks for is held. */
module WalletGate {
  import opened WalletModel
  import opened WalletLocks

  predicate Own(th: Thread) { th.req.Transfer? || th.req.Call? }

  /** What lets a request be sent at once: under a policy the amount is within the threshold, and an
      API key's token has a price; a contract call comes from a passkey. */
  predicate MaySend(req: Request)
    requires req.Transfer? || req.Call?
  {
    && (req.wallet.policed ==> req.amount <= req.wallet.threshold)
    && (req.Transfer? && req.wallet.policed && req.token && !req.passkey ==> req.amount > 0)
    && (req.Call? ==> req.passkey)
  }

  /** What makes a request wait for an approval: under a policy an amount above the threshold, or an
      API key's token without a price; any contract call of an API key. */
  predicate MustAsk(req: Request)
    requires req.Transfer? || req.Call?
  {
    || (req.wallet.policed && req.amount > req.wallet.threshold)
    || (req.Transfer? && req.wallet.policed && req.token && !req.passkey && req.amount == 0)
    || (req.Call? && !req.passkey)
  }

  /** The whole amount is reserved, where the policy has a daily limit. */
  predicate Covered(th: Thread)
    requires th.req.Transfer? || th.req.Call?
  {
    th.req.wallet.policed && th.req.wallet.limited ==> th.reserved == th.req.amount
  }

  /** What the steps of a request so far say about it. */
  predicate Gated(th: Thread) {
    Own(th) && !th.pc.Start? ==>
      && th.wallet == th.req.wallet && th.amount == th.req.amount
      && (th.pc.Send? || th.pc.Refresh? ==> MaySend(th.req) && Covered(th))
      && (th.pc.Create? ==> MustAsk(th.req))
      && (InLedger(th.pc) && th.pc.op == Refund ==> th.req.Transfer?)
      && (InLedger(th.pc) && th.pc.op == Deduct && th.req.Call? ==> !Asks(th.req))
      && (InLedger(th.pc) && th.pc.op == Deduct ==> th.reserved == 0 || th.reserved == th.amount)
      && (InLedger(th.pc) && th.pc.op == Deduct ==> th.amount > 0)
      && (th.pc.WaitAddr? || th.pc.Build? || th.pc.Quote? ==> th.reserved == 0)
  }

  lemma {:induction false} GatedBegin(mem: Shared, th: Thread, c: Choice)
    requires th.pc.Start? && th.reserved == 0
    ensures Gated(Begin(mem, th, c))
  {
  }

  lemma {:induction false} GatedEnd(th: Thread, c: Choice)
    requires Shaped(th) && Gated(th) && AtEnd(th.pc)
    ensures Gated(MoveEnd(th, c))
  {
  }

  lemma {:induction false} GatedBuild(mem: Shared, th: Thread, c: Choice)
    requires Gated(th) && Own(th) && th.pc.Build?
    ensures Gated(AfterBuild(mem, th, c))
  {
  }

  lemma {:induction false} AsksExactly(req: Request)
    requires req.Transfer? || req.Call?
    ensures Asks(req) <==> MustAsk(req)
    ensures !Asks(req) <==> MaySend(req)
  {
  }

  lemma {:induction false} GatedQuote(th: Thread, c: Choice)
    requires Gated(th) && Own(th) && th.pc.Quote?
    ensures Gated(AfterQuote(th, c))
  {
    AsksExactly(th.req);
  }

  lemma {:induction false} GatedGiveUp(th: Thread)
    requires Gated(th) && Own(th) && (th.pc.Send? || th.pc.Refresh?)
    ensures Gated(GiveUp(th))
  {
  }

  lemma {:induction false} GatedSend(th: Thread, c: Choice)
    requires Gated(th) && Own(th) && th.pc.Send?
    ensures Gated(AfterSend(th, c))
  {
    GatedGiveUp(th);
  }

  lemma {:induction false} GatedRefresh(mem: Shared, th: Thread, c: Choice)
    requires Gated(th) && Own(th) && th.pc.Refresh?
    ensures Gated(AfterRefresh(mem, th, c))
  {
    GatedGiveUp(th);
  }

  lemma {:induction false} GatedRead(mem: Shared, th: Thread)
    requires Gated(th) && Own(th) && th.pc.ReadLedger?
    ensures Gated(AfterRead(mem, th, th.pc.op))
  {
  }

  lemma {:induction false} GatedWrite(th: Thread)
    requires Gated(th) && Own(th) && th.pc.WriteLedger?
    ensures Gated(AfterWrite(th, th.pc.op))
  {
  }

  lemma {:induction false} GatedFree(th: Thread)
    requires Gated(th) && Own(th) && th.pc.FreeShard?
    ensures Gated(th.(pc := AfterFree(th, th.pc.op)))
  {
    AsksExactly(th.req);
  }

  lemma {:induction false} GatedMove(mem: Shared, th: Thread, c: Choice)
    requires Shaped(th) && Gated(th) && Own(th) && (th.pc.Start? ==> th.reserved == 0)
    ensures Gated(Move(mem, th, c))
  {
    if AtEnd(th.pc) {
      GatedEnd(th, c);
    } else {
      match th.pc
      case Start => GatedBegin(mem, th, c);
      case Build => GatedBuild(mem, th, c);
      case Quote => GatedQuote(th, c);
      case ReadLedger(_) => GatedRead(mem, th);
      case WriteLedger(_) => GatedWrite(th);
      case FreeShard(_) => GatedFree(th);
      case Send => GatedSend(th, c);
      case Refresh => GatedRefresh(mem, th, c);
      case _ =>
    }
  }

  /** A thread's request is fixed, and no step leads back to the start. */
  ghost predicate Ongoing(th: Thread, th': Thread) { th'.req == th.req && !th'.pc.Start? }

  lemma {:induction false} OngoingMutex(mem: Shared, th: Thread, c: Choice)
    requires AtMutex(th.pc)
    ensures Ongoing(th, MoveMutex(mem, th, c))
  {
  }

  lemma {:induction false} OngoingEnd(th: Thread, c: Choice)
    requires AtEnd(th.pc)
    ensures Ongoing(th, MoveEnd(th, c))
  {
  }

  lemma {:induction false} OngoingSpend(mem: Shared, th: Thread, c: Choice)
    ensures Ongoing(th, Begin(mem, th, c))
    ensures Ongoing(th, AfterBuild(mem, th, c)) && Ongoing(th, AfterQuote(th, c))
    ensures Ongoing(th, AfterSend(th, c)) && Ongoing(th, AfterRefresh(mem, th, c))
  {
  }

  lemma {:induction false} OngoingLedger(mem: Shared, th: Thread, op: LedgerOp)
    ensures Ongoing(th, AfterRead(mem, th, op)) && Ongoing(th, AfterWrite(th, op)) && !AfterFree(th, op).Start?
  {
  }

  lemma {:induction false} OngoingMove(mem: Shared, th: Thread, c: Choice)
    requires th.pc != Done
    ensures Ongoing(th, Move(mem, th, c))
  {
    if AtMutex(th.pc) {
      OngoingMutex(mem, th, c);
    } else if AtEnd(th.pc) {
      OngoingEnd(th, c);
    } else if InLedger(th.pc) {
      OngoingLedger(mem, th, th.pc.op);
    } else {
      OngoingSpend(mem, th, c);
    }
  }

  ghost predicate GateInv(s: State) {
    && LockInv(s)
    && forall t :: 0 <= t < |s.threads| ==> Gated(s.threads[t]) && (s.threads[t].pc.Start? ==> s.threads[t].reserved == 0)
  }

  lemma {:induction false} GateThread(mem: Shared, th: Thread, c: Choice)
    requires Shaped(th) && Gated(th) && th.pc != Done && (th.pc.Start? ==> th.reserved == 0)
    ensures Gated(Move(mem, th, c)) && !Move(mem, th, c).pc.Start?
  {
    OngoingMove(mem, th, c);
    if Own(th) {
      GatedMove(mem, th, c);
    }
  }

  lemma {:induction false} GateExec(s: State, a: Action)
    requires GateInv(s)
    ensures GateInv(Exec(s, a))
  {
    LockInvExec(s, a);
    if a.Step? && Enabled(s, a.t) {
      GateThread(s.mem, s.threads[a.t], a.c);
    }
  }

  lemma {:induction false} GateRun(actions: seq<Action>)
    ensures GateInv(Run(actions))
  {
    if actions == [] {
      LockInvRun([]);
    } else {
      GateRun(actions[..|actions| - 1]);
      GateExec(Run(actions[..|actions| - 1]), actions[|actions| - 1]);
    }
  }

  /** After every run, a transfer or call that is about to be broadcast on its own, by whatever
      credential and of whatever asset, was allowed to be, and holds the whole reservation its
      policy asks for. */
  lemma {:induction false} SentOnlyThroughGate(actions: seq<Action>, t: nat)
    requires t < |Run(actions).threads| && Own(Run(actions).threads[t]) && Run(actions).threads[t].pc.Send?
    ensures var th := Run(actions).threads[t];
      && (th.req.wallet.policed ==> th.req.amount <= th.req.wallet.threshold)
      && (th.req.Transfer? && th.req.wallet.policed && th.req.token && !th.req.passkey ==> th.req.amount > 0)
      && (th.req.Call? ==> th.req.passkey)
      && (th.req.wallet.policed && th.req.wallet.limited ==> th.reserved == th.req.amount)
  {
    GateRun(actions);
    assert Gated(Run(actions).threads[t]);
  }

  /** Conversely, after every run a transfer or call that is about to create an approval had to: its
      wallet has a policy and the amount is above the threshold, or it is an API key's unpriced
      token; or it is an API key's contract call. */
  lemma {:induction false} AskedOnlyByGate(actions: seq<Action>, t: nat)
    requires t < |Run(actions).threads| && Own(Run(actions).threads[t]) && Run(actions).threads[t].pc.Create?
    ensures var th := Run(actions).threads[t];
      || (th.req.wallet.policed && th.req.amount > th.req.wallet.threshold)
      || (th.req.Transfer? && th.req.wallet.policed && th.req.token && !th.req.passkey && th.req.amount == 0)
      || (th.req.Call? && !th.req.passkey)
  {
    GateRun(actions);
    assert Gated(Run(actions).threads[t]);
  }

  /** In the gate's own terms: under a policy an API key's token transfer is sent at once only with a
      known price, within the threshold and, if there is a daily limit, with its amount reserved;
      an API key's contract call never is. */
  lemma {:induction false} ApiKeyGate(actions: seq<Action>, t: nat)
    requires t < |Run(actions).threads| && Own(Run(actions).threads[t]) && Run(actions).threads[t].pc.Send?
    requires !Run(actions).threads[t].req.passkey
    ensures var th := Run(actions).threads[t];
      && th.req.Transfer?
      && (th.req.wallet.policed ==>
        && th.req.amount <= th.req.wallet.threshold
        && (th.req.token ==> th.req.amount > 0)
        && (th.req.wallet.limited ==> th.reserved == th.req.amount))
  {
    SentOnlyThroughGate(actions, t);
  }

  /** After every run, no contract call is taking a reservation back. */
  lemma {:induction false} CallsNeverRefund(actions: seq<Action>, t: nat)
    requires t < |Run(actions).threads| && Run(actions).threads[t].req.Call?
    ensures var pc := Run(actions).threads[t].pc;
      InLedger(pc) ==> pc.op != Refund
  {
    GateRun(actions);
    var th := Run(actions).threads[t];
    assert Gated(th) && Own(th);
  }

  /** An approved spend that can be priced is counted once: reserved before the broadcast where a daily
      limit applies, recorded after it where nothing was reserved. */
  lemma {:induction false} ApprovedSpendCounted(mem: Shared, th: Thread, c: Choice)
    requires th.req.Approve? && !th.config && c.again
    ensures th.pc.Quote? && c.ok ==>
      (Move(mem, th, c).pc == WaitShard(Deduct) <==> th.wallet.policed && th.wallet.limited && th.amount > 0)
    ensures th.pc.Resolve? && th.succeeded ==> (Move(mem, th, c).pc == WaitShard(Record) <==> !th.deducted)
  {
  }

  /** A transfer whose broadcast may be retried keeps its reservation and tries again, with the same
      nonce or after asking for a fresh one. */
  lemma {:induction false} RetryKeepsReservation(mem: Shared, th: Thread, c: Choice)
    requires th.req.Transfer? && th.pc.Send? && th.wallet.evm && !c.ok && c.again
    ensures var th' := Move(mem, th, c);
      && (th'.pc.Send? || th'.pc.Refresh?) && th'.reserved == th.reserved && th'.nonce == th.nonce
      && (th'.pc.Refresh? <==> c.refresh) && Change(mem, th, c) == mem
  {
  }
}
