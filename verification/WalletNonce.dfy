/** Nonces under the address lock.

    Every EVM sender holds its address lock from the nonce query to the broadcast, so the nonce it
    signs is still the node's pending count when it broadcasts.  Hence the nonces a node accepts for
    an address are 0, 1, 2, ... without gap or repetition. */
module WalletNonce {
  import opened WalletModel
  import opened WalletLocks

  /** The nonces accepted for an address, in order of acceptance. */
  function Nonces(chain: seq<(nat, nat)>, a: nat): (ns: seq<nat>)
    ensures |ns| == PendingCount(chain, a)
  {
    if chain == [] then []
    else
      var last := chain[|chain| - 1];
      Nonces(chain[..|chain| - 1], a) + (if last.0 == a then [last.1] else [])
  }

  ghost predicate Contiguous(ns: seq<nat>) {
    forall i :: 0 <= i < |ns| ==> ns[i] == i
  }

  /** The thread has queried a nonce it has not used up yet. */
  predicate Live(th: Thread) {
    Spending(th) && th.wallet.evm
    && (th.pc.Quote? || th.pc.Send? || (InLedger(th.pc) && th.pc.op == Deduct))
  }

  ghost predicate NonceInv(s: State) {
    && LockInv(s)
    && (forall t :: 0 <= t < |s.threads| && Live(s.threads[t]) ==>
          s.threads[t].nonce == PendingCount(s.mem.chain, s.threads[t].wallet.addr))
    && (forall a :: Contiguous(Nonces(s.mem.chain, a)))
  }

  /** Only an accepted EVM broadcast extends the chain. */
  lemma {:induction false} ChainStep(mem: Shared, th: Thread, c: Choice)
    ensures Change(mem, th, c).chain ==
      if th.pc.Send? && c.ok && th.wallet.evm then mem.chain + [(th.wallet.addr, th.nonce)] else mem.chain
  {
    ChainEnd(mem, th, c);
  }

  lemma {:induction false} ChainEnd(mem: Shared, th: Thread, c: Choice)
    ensures ChangeEnd(mem, th, c).chain == mem.chain
  {
    match th.pc
    case Resolve =>
    case Create =>
    case _ =>
  }

  /** Where a live nonce comes from: it was live before, or has just been queried. */
  ghost predicate LiveFrom(mem: Shared, th: Thread, th': Thread) {
    Live(th') ==>
      && th'.wallet == th.wallet
      && ((Live(th) && th'.nonce == th.nonce) || th'.nonce == PendingCount(mem.chain, th.wallet.addr))
  }

  lemma {:induction false} LiveMutex(mem: Shared, th: Thread, c: Choice)
    requires Shaped(th) && AtMutex(th.pc)
    ensures !Live(MoveMutex(mem, th, c))
  {
  }

  lemma {:induction false} LiveLedger(mem: Shared, th: Thread, c: Choice)
    requires Shaped(th) && (th.pc.ReadLedger? || th.pc.WriteLedger? || th.pc.FreeShard?)
    ensures th.pc.ReadLedger? ==> LiveFrom(mem, th, AfterRead(mem, th, th.pc.op))
    ensures th.pc.WriteLedger? ==> LiveFrom(mem, th, AfterWrite(th, th.pc.op))
    ensures th.pc.FreeShard? ==> LiveFrom(mem, th, th.(pc := AfterFree(th, th.pc.op)))
  {
  }

  lemma {:induction false} LiveMove(mem: Shared, th: Thread, c: Choice)
    requires Shaped(th) && th.pc != Done
    ensures LiveFrom(mem, th, Move(mem, th, c))
  {
    if AtMutex(th.pc) {
      LiveMutex(mem, th, c);
    } else if th.pc.Start? {
    } else if th.pc.ReadLedger? || th.pc.WriteLedger? || th.pc.FreeShard? {
      LiveLedger(mem, th, c);
    } else if AtEnd(th.pc) {
      LiveEnd(th, c);
    } else {
      LiveSpend(mem, th, c);
    }
  }

  lemma {:induction false} LiveEnd(th: Thread, c: Choice)
    requires Shaped(th) && AtEnd(th.pc)
    ensures !Live(MoveEnd(th, c))
  {
  }

  lemma {:induction false} LiveSpend(mem: Shared, th: Thread, c: Choice)
    requires Shaped(th)
    ensures th.pc.Build? ==> LiveFrom(mem, th, AfterBuild(mem, th, c))
    ensures th.pc.Quote? ==> LiveFrom(mem, th, AfterQuote(th, c))
    ensures th.pc.Send? ==> LiveFrom(mem, th, AfterSend(th, c))
    ensures th.pc.Refresh? ==> LiveFrom(mem, th, AfterRefresh(mem, th, c))
  {
  }

  lemma {:induction false} NonceStep(s: State, t: nat, c: Choice)
    requires NonceInv(s) && Enabled(s, t)
    ensures NonceInv(Exec(s, Step(t, c)))
  {
    var s', th := Exec(s, Step(t, c)), s.threads[t];
    LockInvExec(s, Step(t, c));
    ChainStep(s.mem, th, c);
    LiveMove(s.mem, th, c);
    if th.pc.Send? && c.ok && th.wallet.evm {
      assert Shaped(th) && Live(th);
      forall a ensures Contiguous(Nonces(s'.mem.chain, a)) {
      }
      forall u | 0 <= u < |s'.threads| && Live(s'.threads[u])
        ensures s'.threads[u].nonce == PendingCount(s'.mem.chain, s'.threads[u].wallet.addr)
      {
        var thu := s.threads[u];
        if thu.wallet.addr == th.wallet.addr {
          Exclusive(s, t, u, AddrLock(th.wallet.addr));
        }
      }
    }
  }

  lemma {:induction false} NonceExec(s: State, a: Action)
    requires NonceInv(s)
    ensures NonceInv(Exec(s, a))
  {
    if a.Step? && Enabled(s, a.t) {
      NonceStep(s, a.t, a.c);
    } else {
      LockInvExec(s, a);
      assert Exec(s, a).mem.chain == s.mem.chain;
    }
  }

  lemma {:induction false} NonceInvRun(actions: seq<Action>)
    ensures NonceInv(Run(actions))
  {
    if actions == [] {
      LockInvRun([]);
    } else {
      NonceInvRun(actions[..|actions| - 1]);
      NonceExec(Run(actions[..|actions| - 1]), actions[|actions| - 1]);
    }
  }

  /** After every run, a request about to broadcast signs the node's current pending count. */
  lemma {:induction false} SignedNonceIsPending(actions: seq<Action>, t: nat)
    requires t < |Run(actions).threads|
    requires Run(actions).threads[t].pc.Send? && Run(actions).threads[t].wallet.evm
    ensures Run(actions).threads[t].nonce == PendingCount(Run(actions).mem.chain, Run(actions).threads[t].wallet.addr)
  {
    NonceInvRun(actions);
    assert Shaped(Run(actions).threads[t]);
  }

  /** After every run the accepted nonces of every address are 0, 1, 2, ... in order. */
  lemma {:induction false} AcceptedNoncesContiguous(actions: seq<Action>, a: nat, i: nat)
    requires i < |Nonces(Run(actions).mem.chain, a)|
    ensures Nonces(Run(actions).mem.chain, a)[i] == i
  {
    NonceInvRun(actions);
    assert Contiguous(Nonces(Run(actions).mem.chain, a));
  }
}
