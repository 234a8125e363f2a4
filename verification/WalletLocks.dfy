/** Mutual exclusion and deadlock freedom of the wallet backend.

    Locks are taken in the order approval, address, wallet shard, and released in reverse; no
    request takes a lock it already holds. */
module WalletLocks {
  import opened WalletModel

  predicate HoldsMutex(th: Thread) {
    Approving(th) && !th.pc.Start? && !th.pc.GetMutex? && !th.pc.WaitMutex? && !th.pc.Done?
  }

  predicate HoldsAddr(th: Thread) {
    Spending(th) && th.wallet.evm
    && (th.pc.Build? || th.pc.Quote? || InLedger(th.pc) || th.pc.Send? || th.pc.Refresh? || th.pc.Resolve?
        || th.pc.Create? || th.pc.FreeAddr?)
  }

  predicate HoldsShard(th: Thread) { th.pc.ReadLedger? || th.pc.WriteLedger? || th.pc.FreeShard? }

  /** Whether a thread holds a lock, from its program counter. */
  predicate Holds(th: Thread, l: Lock) {
    match l
    case ApprovalLock(id, gen) => HoldsMutex(th) && th.id == id && th.gen == gen
    case AddrLock(a) => HoldsAddr(th) && th.wallet.addr == a
    case ShardLock(k) => HoldsShard(th) && th.wallet.shard == k
  }

  /** Which program counters a request can reach. */
  predicate Shaped(th: Thread) {
    match th.pc
    case Start => true
    case Done => true
    case GetMutex => Approving(th)
    case WaitMutex => Approving(th)
    case Check => Approving(th)
    case MarkExpired => th.req.Approve?
    case RejectWrite => th.req.Reject?
    case Past => th.req.Approve?
    case FreeMutex => Approving(th)
    case Resolve => th.req.Approve?
    case Create => (Spending(th) && !th.req.Approve?) || th.req.Propose?
    case ViewWrite => th.req.View?
    case CollectDelete => th.req.Collect?
    case WaitAddr => Spending(th) && th.wallet.evm
    case Build => Spending(th) && th.wallet.evm
    case Refresh => th.req.Transfer? && th.wallet.evm
    case _ => Spending(th)
  }

  /** One step keeps the shape, the identity of every lock in use, and takes or drops each lock
      only at the program counters that say so. */
  ghost predicate LockStep(th: Thread, th': Thread) {
    && Shaped(th')
    && (HoldsMutex(th') <==> th.pc.WaitMutex? || (HoldsMutex(th) && !th.pc.FreeMutex?))
    && (HoldsAddr(th') <==> th.pc.WaitAddr? || (HoldsAddr(th) && !th.pc.FreeAddr?))
    && (HoldsShard(th') <==> th.pc.WaitShard? || (HoldsShard(th) && !th.pc.FreeShard?))
    && (HoldsMutex(th') ==> th'.id == th.id && th'.gen == th.gen)
    && (HoldsAddr(th') || HoldsShard(th') ==> th'.wallet == th.wallet)
  }

  /** In terms of single locks: what is held changes exactly as the lock operation says. */
  lemma {:induction false} LockStepHolds(th: Thread, th': Thread, l: Lock)
    requires Shaped(th) && th.pc != Done && LockStep(th, th')
    ensures Op(th).Release? ==> Holds(th, Op(th).l)
    ensures Holds(th', l) <==> match Op(th)
      case NoLock => Holds(th, l)
      case Acquire(x) => Holds(th, l) || l == x
      case Release(x) => Holds(th, l) && l != x
  {
  }

  lemma {:induction false} LockBegin(mem: Shared, th: Thread, c: Choice)
    requires Shaped(th) && th.pc.Start?
    ensures LockStep(th, Begin(mem, th, c))
  {
    match th.req
    case Transfer(_, _, _, _) =>
    case Call(_, _, _) =>
    case Approve(_) =>
    case Reject(_) =>
    case _ =>
  }

  lemma {:induction false} LockQuote(th: Thread, c: Choice)
    requires Shaped(th) && th.pc.Quote?
    ensures LockStep(th, AfterQuote(th, c))
  {
  }

  lemma {:induction false} LockRead(mem: Shared, th: Thread)
    requires Shaped(th) && th.pc.ReadLedger?
    ensures LockStep(th, AfterRead(mem, th, th.pc.op))
  {
  }

  lemma {:induction false} LockWrite(th: Thread)
    requires Shaped(th) && th.pc.WriteLedger?
    ensures LockStep(th, AfterWrite(th, th.pc.op))
  {
  }

  lemma {:induction false} LockFree(th: Thread)
    requires Shaped(th) && th.pc.FreeShard?
    ensures LockStep(th, th.(pc := AfterFree(th, th.pc.op)))
  {
  }

  lemma {:induction false} LockSend(th: Thread, c: Choice)
    requires Shaped(th) && th.pc.Send?
    ensures LockStep(th, AfterSend(th, c))
  {
  }

  lemma {:induction false} LockRefresh(mem: Shared, th: Thread, c: Choice)
    requires Shaped(th) && th.pc.Refresh?
    ensures LockStep(th, AfterRefresh(mem, th, c))
  {
  }

  lemma {:induction false} LockMutex(mem: Shared, th: Thread, c: Choice)
    requires Shaped(th) && AtMutex(th.pc)
    ensures LockStep(th, MoveMutex(mem, th, c))
  {
  }

  lemma {:induction false} LockEnd(th: Thread, c: Choice)
    requires Shaped(th) && AtEnd(th.pc)
    ensures LockStep(th, MoveEnd(th, c))
  {
  }

  lemma {:induction false} LockStepAny(mem: Shared, th: Thread, c: Choice)
    requires Shaped(th) && th.pc != Done
    ensures LockStep(th, Move(mem, th, c))
  {
    if AtMutex(th.pc) {
      LockMutex(mem, th, c);
    } else if AtEnd(th.pc) {
      LockEnd(th, c);
    } else {
      match th.pc
      case Start => LockBegin(mem, th, c);
      case Quote => LockQuote(th, c);
      case ReadLedger(_) => LockRead(mem, th);
      case WriteLedger(_) => LockWrite(th);
      case FreeShard(_) => LockFree(th);
      case Refresh => LockRefresh(mem, th, c);
      case Send => LockSend(th, c);
      case _ =>
    }
  }

  // ----- the lock table agrees with the threads -----

  ghost predicate LockInv(s: State) {
    && (forall t :: 0 <= t < |s.threads| ==> Shaped(s.threads[t]))
    && (forall l :: l in s.owner ==> s.owner[l] < |s.threads|)
    && (forall t, l :: 0 <= t < |s.threads| && Holds(s.threads[t], l) ==> l in s.owner && s.owner[l] == t)
    && (forall l :: l in s.owner ==> Holds(s.threads[s.owner[l]], l))
  }

  /** At most one thread holds a lock. */
  lemma {:induction false} Exclusive(s: State, t: nat, u: nat, l: Lock)
    requires LockInv(s) && t < |s.threads| && u < |s.threads|
    requires Holds(s.threads[t], l) && Holds(s.threads[u], l)
    ensures t == u
  {
    assert s.owner[l] == t && s.owner[l] == u;
  }

  /** Thread `t` moved to `th'` and the lock table followed. */
  ghost predicate LockMoved(s: State, s': State, t: nat, th': Thread) {
    && t < |s.threads| && s'.threads == s.threads[t := th']
    && s'.owner == ApplyOp(s.owner, Op(s.threads[t]), t)
    && (Op(s.threads[t]).Acquire? ==> Op(s.threads[t]).l !in s.owner)
    && Shaped(s.threads[t]) && s.threads[t].pc != Done && LockStep(s.threads[t], th')
  }

  lemma {:induction false} HeldIsOwned(s: State, s': State, t: nat, th': Thread, u: nat, l: Lock)
    requires LockInv(s) && LockMoved(s, s', t, th') && u < |s'.threads| && Holds(s'.threads[u], l)
    ensures l in s'.owner && s'.owner[l] == u
  {
    LockStepHolds(s.threads[t], th', l);
    if u != t {
      assert l in s.owner && s.owner[l] == u;
    }
  }

  lemma {:induction false} OwnedIsHeld(s: State, s': State, t: nat, th': Thread, l: Lock)
    requires LockInv(s) && LockMoved(s, s', t, th') && l in s'.owner
    ensures s'.owner[l] < |s'.threads| && Holds(s'.threads[s'.owner[l]], l)
  {
    LockStepHolds(s.threads[t], th', l);
  }

  lemma {:induction false} LockInvMoved(s: State, s': State, t: nat, th': Thread)
    requires LockInv(s) && LockMoved(s, s', t, th')
    ensures LockInv(s')
  {
    forall u, l | 0 <= u < |s'.threads| && Holds(s'.threads[u], l) ensures l in s'.owner && s'.owner[l] == u {
      HeldIsOwned(s, s', t, th', u, l);
    }
    forall l | l in s'.owner ensures s'.owner[l] < |s'.threads| && Holds(s'.threads[s'.owner[l]], l) {
      OwnedIsHeld(s, s', t, th', l);
    }
  }

  lemma {:induction false} LockInvStep(s: State, t: nat, c: Choice)
    requires LockInv(s) && Enabled(s, t)
    ensures LockInv(Exec(s, Step(t, c)))
  {
    var th' := Move(s.mem, s.threads[t], c);
    LockStepAny(s.mem, s.threads[t], c);
    LockInvMoved(s, Exec(s, Step(t, c)), t, th');
  }

  /** Every action keeps the lock table consistent. */
  lemma {:induction false} LockInvExec(s: State, a: Action)
    requires LockInv(s)
    ensures LockInv(Exec(s, a))
  {
    match a
    case Step(t, c) => if Enabled(s, t) { LockInvStep(s, t, c); }
    case Arrive(req) =>
    case _ =>
  }

  lemma {:induction false} LockInvRun(actions: seq<Action>)
    ensures LockInv(Run(actions))
  {
    if actions != [] {
      LockInvRun(actions[..|actions| - 1]);
      LockInvExec(Run(actions[..|actions| - 1]), actions[|actions| - 1]);
    }
  }

  // ----- deadlock freedom -----

  /** Position in the global lock order. */
  function Rank(l: Lock): nat {
    match l
    case ApprovalLock(_, _) => 1
    case AddrLock(_) => 2
    case ShardLock(_) => 3
  }

  /** A thread never waits for a lock that is not above everything it holds. */
  lemma {:induction false} LockOrder(th: Thread, l: Lock)
    requires Shaped(th) && Op(th).Acquire? && Holds(th, l)
    ensures Rank(l) < Rank(Op(th).l)
  {
  }

  /** From a blocked thread, follow the owner of the lock it waits for: some thread can step. */
  lemma {:induction false} Unblocked(s: State, t: nat) returns (u: nat)
    requires LockInv(s) && t < |s.threads| && s.threads[t].pc != Done
    ensures Enabled(s, u)
    decreases if Op(s.threads[t]).Acquire? then 3 - Rank(Op(s.threads[t]).l) else 0
  {
    if Enabled(s, t) {
      return t;
    }
    var l := Op(s.threads[t]).l;
    var holder := s.owner[l];
    var th := s.threads[holder];
    assert Holds(th, l) && th.pc != Done;
    if !Op(th).Acquire? {
      return holder;
    }
    LockOrder(th, l);
    u := Unblocked(s, holder);
  }

  /** In every reachable state with an unfinished request, some request can make a step. */
  lemma {:induction false} NoDeadlock(actions: seq<Action>, t: nat)
    requires t < |Run(actions).threads| && Run(actions).threads[t].pc != Done
    ensures exists u :: Enabled(Run(actions), u)
  {
    LockInvRun(actions);
    var u := Unblocked(Run(actions), t);
  }
}
