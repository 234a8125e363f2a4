/** The daily-limit ledger over every interleaving.

    A request reserves before it sends and refunds when it fails.  The counter of a wallet is always
    what is reserved now plus what was completed plus what was recorded after the fact, provided no
    refund crosses midnight; the last section shows what a refund that does cross it destroys. */
module WalletLedger {
  import opened WalletModel
  import opened WalletLocks

  /** What a thread has reserved from wallet `w` on day `d`. */
  function Reserved(th: Thread, w: Wallet, d: nat): nat {
    if th.wallet == w && th.resDay == d then th.reserved else 0
  }

  function Outstanding(ts: seq<Thread>, w: Wallet, d: nat): nat {
    if ts == [] then 0 else Outstanding(ts[..|ts| - 1], w, d) + Reserved(ts[|ts| - 1], w, d)
  }

  lemma {:induction false} OutstandingAt(ts: seq<Thread>, t: nat, w: Wallet, d: nat)
    requires t < |ts|
    ensures Reserved(ts[t], w, d) <= Outstanding(ts, w, d)
  {
    if t < |ts| - 1 {
      OutstandingAt(ts[..|ts| - 1], t, w, d);
    }
  }

  lemma {:induction false} OutstandingUpdate(ts: seq<Thread>, t: nat, th: Thread, w: Wallet, d: nat)
    requires t < |ts|
    ensures Outstanding(ts[t := th], w, d) + Reserved(ts[t], w, d) == Outstanding(ts, w, d) + Reserved(th, w, d)
  {
    var init := ts[..|ts| - 1];
    if t == |ts| - 1 {
      assert ts[t := th][..|ts| - 1] == init;
    } else {
      assert ts[t := th][..|ts| - 1] == init[t := th];
      OutstandingUpdate(init, t, th, w, d);
    }
  }

  lemma {:induction false} OutstandingZero(ts: seq<Thread>, w: Wallet, d: nat)
    requires forall t :: 0 <= t < |ts| ==> Reserved(ts[t], w, d) == 0
    ensures Outstanding(ts, w, d) == 0
  {
    if ts != [] {
      OutstandingZero(ts[..|ts| - 1], w, d);
    }
  }

  // ----- no residue: where a reservation can live -----

  /** Program counters at which nothing may be reserved; a contract call may leave with a
      reservation because the source never refunds it. */
  predicate Free(th: Thread) {
    match th.pc
    case FreeShard(op) => op != Deduct
    case WaitShard(op) => op != Refund
    case ReadLedger(op) => op != Refund
    case WriteLedger(op) => op != Refund
    case Send => false
    case Refresh => false
    case FreeAddr => !th.req.Call?
    case Done => !th.req.Call?
    case _ => true
  }

  predicate Local(th: Thread) {
    && (Free(th) ==> th.reserved == 0)
    && (InLedger(th.pc) && th.pc.op == Deduct ==> th.amount > 0)
    && (th.reserved > 0 ==> Spending(th))
    && (th.pc.Start? ==> th.reserved == 0)
  }

  lemma {:induction false} LocalBegin(mem: Shared, th: Thread, c: Choice)
    requires Shaped(th) && Local(th) && th.pc.Start?
    ensures Local(Begin(mem, th, c)) && Begin(mem, th, c).reserved == 0
  {
  }

  /** The reservation, and the wallet and day it counts for, did not change. */
  predicate Kept(th: Thread, th': Thread) {
    th'.reserved == th.reserved && (th.reserved > 0 ==> th'.wallet == th.wallet && th'.resDay == th.resDay)
  }

  lemma {:induction false} LocalMutex(mem: Shared, th: Thread, c: Choice)
    requires Shaped(th) && Local(th) && AtMutex(th.pc)
    ensures Local(MoveMutex(mem, th, c)) && Kept(th, MoveMutex(mem, th, c))
  {
  }

  lemma {:induction false} LocalEnd(th: Thread, c: Choice)
    requires Shaped(th) && Local(th) && AtEnd(th.pc)
    ensures Local(MoveEnd(th, c)) && Kept(th, MoveEnd(th, c))
  {
  }

  lemma {:induction false} LocalQuote(th: Thread, c: Choice)
    requires Shaped(th) && Local(th) && th.pc.Quote?
    ensures Local(AfterQuote(th, c)) && Kept(th, AfterQuote(th, c))
  {
  }

  lemma {:induction false} LocalFree(th: Thread)
    requires Shaped(th) && Local(th) && th.pc.FreeShard?
    ensures Local(th.(pc := AfterFree(th, th.pc.op))) && Kept(th, th.(pc := AfterFree(th, th.pc.op)))
  {
  }

  lemma {:induction false} LocalGiveUp(th: Thread)
    requires Shaped(th) && Local(th) && (th.pc.Send? || th.pc.Refresh?)
    ensures Local(GiveUp(th)) && Kept(th, GiveUp(th))
  {
  }

  lemma {:induction false} LocalRead(mem: Shared, th: Thread)
    requires Shaped(th) && Local(th) && th.pc.ReadLedger?
    ensures Local(AfterRead(mem, th, th.pc.op))
    ensures th.pc.op != Refund || LedgerOf(mem, th.wallet).day >= mem.day ==> Kept(th, AfterRead(mem, th, th.pc.op))
  {
  }

  lemma {:induction false} LocalSend(th: Thread, c: Choice)
    requires Shaped(th) && Local(th) && th.pc.Send?
    ensures Local(AfterSend(th, c))
    ensures !c.ok ==> Kept(th, AfterSend(th, c))
  {
    LocalGiveUp(th);
  }

  /** The steps that move money: ledger writes, refunds found stale, and accepted broadcasts. */
  predicate Moves(mem: Shared, th: Thread, c: Choice) {
    || (th.pc.WriteLedger? && th.pc.op != Record)
    || (th.pc.ReadLedger? && th.pc.op == Refund && LedgerOf(mem, th.wallet).day < mem.day)
    || (th.pc.Send? && c.ok)
  }

  lemma {:induction false} LocalMove(mem: Shared, th: Thread, c: Choice)
    requires Shaped(th) && Local(th) && th.pc != Done
    ensures Local(Move(mem, th, c))
    ensures !Moves(mem, th, c) ==> Kept(th, Move(mem, th, c))
  {
    if AtMutex(th.pc) {
      LocalMutex(mem, th, c);
    } else if AtEnd(th.pc) {
      LocalEnd(th, c);
    } else {
      match th.pc
      case Start => LocalBegin(mem, th, c);
      case Quote => LocalQuote(th, c);
      case ReadLedger(_) => LocalRead(mem, th);
      case WriteLedger(_) =>
      case FreeShard(_) => LocalFree(th);
      case Refresh => LocalGiveUp(th);
      case Send => LocalSend(th, c);
      case _ =>
    }
  }

  ghost predicate AllLocal(s: State) {
    forall t :: 0 <= t < |s.threads| ==> Local(s.threads[t])
  }

  lemma {:induction false} AllLocalRun(actions: seq<Action>)
    ensures LockInv(Run(actions)) && AllLocal(Run(actions))
  {
    LockInvRun(actions);
    if actions != [] {
      var s, a := Run(actions[..|actions| - 1]), actions[|actions| - 1];
      AllLocalRun(actions[..|actions| - 1]);
      if a.Step? && Enabled(s, a.t) {
        LocalMove(s.mem, s.threads[a.t], a.c);
      }
    }
  }

  /** After every run a finished transfer, wrap or approval holds no reservation: it was refunded, or
      it became a completed spend. */
  lemma {:induction false} NoResidue(actions: seq<Action>, t: nat)
    requires t < |Run(actions).threads|
    requires Run(actions).threads[t].pc == Done && !Run(actions).threads[t].req.Call?
    ensures Run(actions).threads[t].reserved == 0
  {
    AllLocalRun(actions);
  }

  // ----- the ledger invariant -----

  /** The counter of a wallet is explained: reserved now, completed, or recorded after the fact; and
      what was reserved or completed fits the limit. */
  ghost predicate Balanced(s: State, w: Wallet) {
    var l := LedgerOf(s.mem, w);
    && l.day <= s.mem.day
    && l.spent == Outstanding(s.threads, w, l.day) + Total(s.mem.completed, w, l.day) + Total(s.mem.added, w, l.day)
    && Outstanding(s.threads, w, l.day) + Total(s.mem.completed, w, l.day) <= w.limit
    && (forall d :: d > l.day ==> Total(s.mem.completed, w, d) == 0 && Total(s.mem.added, w, d) == 0)
  }

  /** What a thread between reading and writing the ledger knows. */
  ghost predicate Fresh(s: State, th: Thread) {
    && (th.reserved > 0 ==> th.resDay <= LedgerOf(s.mem, th.wallet).day)
    && (th.pc.WriteLedger? ==>
         && th.seen == LedgerOf(s.mem, th.wallet) && th.today <= s.mem.day
         && (th.pc.op == Deduct ==> Base(th.seen, th.today) + th.amount <= th.wallet.limit)
         && (th.pc.op == Refund ==> th.resDay == th.seen.day))
  }

  ghost predicate LedgerInv(s: State) {
    && LockInv(s) && AllLocal(s)
    && (forall t :: 0 <= t < |s.threads| ==> Fresh(s, s.threads[t]))
    && (forall w :: Balanced(s, w))
  }

  /** Refunds happen on the UTC day of the reservation. */
  predicate SameDay(s: State, a: Action) {
    a.Step? && a.t < |s.threads| && s.threads[a.t].pc == ReadLedger(Refund) ==> s.threads[a.t].resDay == s.mem.day
  }

  predicate SameDayRun(actions: seq<Action>) {
    actions == []
    || (SameDayRun(actions[..|actions| - 1]) && SameDay(Run(actions[..|actions| - 1]), actions[|actions| - 1]))
  }

  /** Two threads inside the ledger section of one wallet are the same thread. */
  lemma {:induction false} OneWriter(s: State, t: nat, u: nat)
    requires LockInv(s) && t < |s.threads| && u < |s.threads|
    requires HoldsShard(s.threads[t]) && HoldsShard(s.threads[u]) && s.threads[t].wallet == s.threads[u].wallet
    ensures t == u
  {
    Exclusive(s, t, u, ShardLock(s.threads[t].wallet.shard));
  }

  /** One thread moved from `th` to `th'`. */
  ghost predicate Stepped(s: State, s': State, t: nat, c: Choice) {
    && t < |s.threads| && s.threads[t].pc != Done
    && s'.mem == Change(s.mem, s.threads[t], c)
    && s'.threads == s.threads[t := Move(s.mem, s.threads[t], c)]
    && LockInv(s') && AllLocal(s')
  }

  /** Steps that touch neither the totals nor anybody's reservation. */
  lemma {:induction false} QuietBalanced(s: State, s': State, t: nat, w: Wallet)
    requires Balanced(s, w) && t < |s.threads| && |s'.threads| == |s.threads|
    requires s'.threads == s.threads[t := s'.threads[t]] && Kept(s.threads[t], s'.threads[t])
    requires s'.mem.ledger == s.mem.ledger && s'.mem.day == s.mem.day
    requires s'.mem.completed == s.mem.completed && s'.mem.added == s.mem.added
    ensures Balanced(s', w)
  {
    OutstandingUpdate(s.threads, t, s'.threads[t], w, LedgerOf(s.mem, w).day);
  }

  /** The parts of shared memory the ledger argument is about. */
  ghost predicate SameBooks(mem: Shared, mem': Shared) {
    mem'.day == mem.day && mem'.ledger == mem.ledger && mem'.completed == mem.completed && mem'.added == mem.added
  }

  lemma {:induction false} MutexBooks(mem: Shared, th: Thread, c: Choice)
    ensures SameBooks(mem, ChangeMutex(mem, th, c))
  {
    match th.pc
    case MarkExpired =>
    case RejectWrite =>
    case _ =>
  }

  lemma {:induction false} EndBooks(mem: Shared, th: Thread, c: Choice)
    ensures SameBooks(mem, ChangeEnd(mem, th, c))
  {
    match th.pc
    case Resolve =>
    case Create =>
    case ViewWrite =>
    case _ =>
  }

  /** Only ledger writes and accepted broadcasts touch the books. */
  lemma {:induction false} Books(mem: Shared, th: Thread, c: Choice)
    requires !th.pc.WriteLedger? && !(th.pc.Send? && c.ok)
    ensures SameBooks(mem, Change(mem, th, c))
  {
    MutexBooks(mem, th, c);
    EndBooks(mem, th, c);
  }

  /** An accepted broadcast turns the reservation into a completed spend. */
  lemma {:induction false} SendBalanced(s: State, s': State, t: nat, w: Wallet)
    requires Balanced(s, w) && t < |s.threads| && s.threads[t].pc.Send? && |s'.threads| == |s.threads|
    requires s'.threads == s.threads[t := s'.threads[t]] && s'.threads[t].reserved == 0
    requires Fresh(s, s.threads[t])
    requires s'.mem.ledger == s.mem.ledger && s'.mem.day == s.mem.day && s'.mem.added == s.mem.added
    requires s'.mem.completed == AddTo(s.mem.completed, s.threads[t].wallet, s.threads[t].resDay, s.threads[t].reserved)
    ensures Balanced(s', w)
  {
    var th := s.threads[t];
    OutstandingUpdate(s.threads, t, s'.threads[t], w, LedgerOf(s.mem, w).day);
    forall d ensures Total(s'.mem.completed, w, d) ==
      Total(s.mem.completed, w, d) + (if th.wallet == w && th.resDay == d then th.reserved else 0)
    {
    }
  }

  /** A write by `t` to its wallet's ledger leaves every other wallet's books alone. */
  lemma {:induction false} OtherBalanced(s: State, s': State, t: nat, w: Wallet)
    requires Balanced(s, w) && t < |s.threads| && |s'.threads| == |s.threads|
    requires s'.threads == s.threads[t := s'.threads[t]]
    requires s.threads[t].wallet != w && s'.threads[t].wallet == s.threads[t].wallet
    requires LedgerOf(s'.mem, w) == LedgerOf(s.mem, w) && s'.mem.day == s.mem.day
    requires s'.mem.completed == s.mem.completed
    requires forall d :: Total(s'.mem.added, w, d) == Total(s.mem.added, w, d)
    ensures Balanced(s', w)
  {
    OutstandingUpdate(s.threads, t, s'.threads[t], w, LedgerOf(s.mem, w).day);
  }

  /** Reserving: the whole new counter fits the limit. */
  lemma {:induction false} DeductBalanced(s: State, s': State, t: nat)
    requires LedgerInv(s) && t < |s.threads| && s.threads[t].pc == WriteLedger(Deduct) && |s'.threads| == |s.threads|
    requires s'.threads == s.threads[t := AfterWrite(s.threads[t], Deduct)]
    requires s'.mem == WriteRow(s.mem, s.threads[t], Deduct)
    ensures Balanced(s', s.threads[t].wallet)
  {
    var th := s.threads[t];
    var w, l := th.wallet, th.seen;
    var d := LedgerDay(l, th.today);
    assert Balanced(s, w) && Fresh(s, th) && th.reserved == 0;
    OutstandingUpdate(s.threads, t, s'.threads[t], w, d);
    if l.day < th.today {
      forall u | 0 <= u < |s.threads| ensures Reserved(s.threads[u], w, d) == 0 {
        assert Fresh(s, s.threads[u]);
      }
      OutstandingZero(s.threads, w, d);
    }
  }

  /** Refunding: the clamp does not fire, because the counter still contains the reservation. */
  lemma {:induction false} RefundBalanced(s: State, s': State, t: nat)
    requires LedgerInv(s) && t < |s.threads| && s.threads[t].pc == WriteLedger(Refund) && |s'.threads| == |s.threads|
    requires s'.threads == s.threads[t := AfterWrite(s.threads[t], Refund)]
    requires s'.mem == WriteRow(s.mem, s.threads[t], Refund)
    ensures s.threads[t].reserved <= s.threads[t].seen.spent
    ensures Balanced(s', s.threads[t].wallet)
  {
    var th := s.threads[t];
    assert Balanced(s, th.wallet) && Fresh(s, th);
    OutstandingAt(s.threads, t, th.wallet, th.resDay);
    OutstandingUpdate(s.threads, t, s'.threads[t], th.wallet, th.resDay);
  }

  /** Recording a spend that was not reserved. */
  lemma {:induction false} RecordBalanced(s: State, s': State, t: nat)
    requires LedgerInv(s) && t < |s.threads| && s.threads[t].pc == WriteLedger(Record) && |s'.threads| == |s.threads|
    requires s'.threads == s.threads[t := AfterWrite(s.threads[t], Record)]
    requires s'.mem == WriteRow(s.mem, s.threads[t], Record)
    ensures Balanced(s', s.threads[t].wallet)
  {
    var th := s.threads[t];
    var w, l := th.wallet, th.seen;
    var d := LedgerDay(l, th.today);
    assert Balanced(s, w) && Fresh(s, th) && th.reserved == 0;
    OutstandingUpdate(s.threads, t, s'.threads[t], w, d);
    if l.day < th.today {
      forall u | 0 <= u < |s.threads| ensures Reserved(s.threads[u], w, d) == 0 {
        assert Fresh(s, s.threads[u]);
      }
      OutstandingZero(s.threads, w, d);
    }
    forall d' ensures Total(s'.mem.added, w, d') == Total(s.mem.added, w, d') + (if d == d' then th.amount else 0) {
    }
  }

  lemma {:induction false} WriteBalanced(s: State, s': State, t: nat, c: Choice, w: Wallet)
    requires LedgerInv(s) && Stepped(s, s', t, c) && s.threads[t].pc.WriteLedger?
    ensures Balanced(s', w)
  {
    var th := s.threads[t];
    assert Balanced(s, w);
    if th.wallet == w {
      match th.pc.op
      case Deduct => DeductBalanced(s, s', t);
      case Refund => RefundBalanced(s, s', t);
      case Record => RecordBalanced(s, s', t);
    } else {
      forall d ensures Total(s'.mem.added, w, d) == Total(s.mem.added, w, d) {
      }
      OtherBalanced(s, s', t, w);
    }
  }

  lemma {:induction false} StepBalanced(s: State, s': State, t: nat, c: Choice, w: Wallet)
    requires LedgerInv(s) && Stepped(s, s', t, c) && SameDay(s, Step(t, c))
    ensures Balanced(s', w)
  {
    var th := s.threads[t];
    assert Balanced(s, w) && Fresh(s, th) && Local(th) && Shaped(th);
    if th.pc.WriteLedger? {
      WriteBalanced(s, s', t, c, w);
    } else if th.pc.Send? && c.ok {
      SentBooks(s.mem, th, c);
      SendBalanced(s, s', t, w);
    } else {
      Books(s.mem, th, c);
      RefundNotStale(s, t);
      LocalMove(s.mem, th, c);
      QuietBalanced(s, s', t, w);
    }
  }

  lemma {:induction false} SentBooks(mem: Shared, th: Thread, c: Choice)
    requires th.pc.Send? && c.ok
    ensures var mem' := Change(mem, th, c);
      && mem'.day == mem.day && mem'.ledger == mem.ledger && mem'.added == mem.added
      && mem'.completed == AddTo(mem.completed, th.wallet, th.resDay, th.reserved)
    ensures Move(mem, th, c).reserved == 0
  {
    BroadcastBooks(mem, th, c);
  }

  lemma {:induction false} BroadcastBooks(mem: Shared, th: Thread, c: Choice)
    requires c.ok
    ensures var mem' := Broadcast(mem, th, c);
      && mem'.day == mem.day && mem'.ledger == mem.ledger && mem'.added == mem.added
      && mem'.completed == AddTo(mem.completed, th.wallet, th.resDay, th.reserved)
    ensures AfterSend(th, c).reserved == 0
  {
    var logged := if th.req.Approve? then Emit(mem, Attempted(th.id, c.ok)) else mem;
    assert SameBooks(mem, logged);
    var sent := if th.wallet.evm then logged.(chain := logged.chain + [(th.wallet.addr, th.nonce)]) else logged;
    assert SameBooks(mem, sent);
    assert Broadcast(mem, th, c) == sent.(completed := AddTo(sent.completed, th.wallet, th.resDay, th.reserved));
  }

  /** A refund on the day of its reservation finds a ledger of that same day. */
  lemma {:induction false} RefundNotStale(s: State, t: nat)
    requires LedgerInv(s) && t < |s.threads| && (s.threads[t].pc == ReadLedger(Refund) ==> s.threads[t].resDay == s.mem.day)
    ensures s.threads[t].pc == ReadLedger(Refund) && s.threads[t].reserved > 0 ==>
      LedgerOf(s.mem, s.threads[t].wallet).day == s.threads[t].resDay
  {
    assert Balanced(s, s.threads[t].wallet) && Fresh(s, s.threads[t]);
  }

  // ----- what threads know stays true -----

  /** A ledger row never goes back to an earlier day. */
  lemma {:induction false} DayGrows(s: State, s': State, t: nat, c: Choice, w: Wallet)
    requires LedgerInv(s) && Stepped(s, s', t, c)
    ensures LedgerOf(s.mem, w).day <= LedgerOf(s'.mem, w).day
    ensures w != s.threads[t].wallet || !s.threads[t].pc.WriteLedger? ==> LedgerOf(s'.mem, w) == LedgerOf(s.mem, w)
    ensures s'.mem.day == s.mem.day
  {
    var th := s.threads[t];
    assert Fresh(s, th);
    if th.pc.Send? && c.ok {
      SentBooks(s.mem, th, c);
    } else if !th.pc.WriteLedger? {
      Books(s.mem, th, c);
    }
  }

  lemma {:induction false} OtherFresh(s: State, s': State, t: nat, c: Choice, u: nat)
    requires LedgerInv(s) && Stepped(s, s', t, c) && u < |s.threads| && u != t
    ensures Fresh(s', s'.threads[u])
  {
    var thu := s.threads[u];
    assert Fresh(s, thu) && s'.threads[u] == thu;
    DayGrows(s, s', t, c, thu.wallet);
    if thu.pc.WriteLedger? && s.threads[t].pc.WriteLedger? && s.threads[t].wallet == thu.wallet {
      OneWriter(s, t, u);
    }
  }

  lemma {:induction false} OwnFresh(s: State, s': State, t: nat, c: Choice)
    requires LedgerInv(s) && Stepped(s, s', t, c) && SameDay(s, Step(t, c))
    ensures Fresh(s', s'.threads[t])
  {
    var th, th' := s.threads[t], s'.threads[t];
    assert Fresh(s, th) && Local(th) && Local(th') && Shaped(th);
    DayGrows(s, s', t, c, th.wallet);
    if th.pc.ReadLedger? {
      ReadFresh(s, s', t, c);
    } else if th.pc.WriteLedger? {
      WriteFresh(s, s', t, c);
    } else {
      NotWriting(s.mem, th, c);
      LocalMove(s.mem, th, c);
    }
  }

  /** Only a read leads to a ledger write. */
  lemma {:induction false} NotWriting(mem: Shared, th: Thread, c: Choice)
    requires Shaped(th) && !th.pc.ReadLedger? && !th.pc.WriteLedger? && th.pc != Done
    ensures !Move(mem, th, c).pc.WriteLedger?
  {
    // one group of program counters at a time
    if AtMutex(th.pc) {
    } else if AtEnd(th.pc) {
    } else if th.pc.Start? {
    }
  }

  lemma {:induction false} ReadFresh(s: State, s': State, t: nat, c: Choice)
    requires LedgerInv(s) && Stepped(s, s', t, c) && SameDay(s, Step(t, c)) && s.threads[t].pc.ReadLedger?
    ensures Fresh(s', s'.threads[t])
  {
    var th := s.threads[t];
    Books(s.mem, th, c);
    assert Fresh(s, th) && Balanced(s, th.wallet);
    ReadFreshAt(s, s', th);
  }

  lemma {:induction false} ReadFreshAt(s: State, s': State, th: Thread)
    requires th.pc.ReadLedger? && Fresh(s, th) && SameBooks(s.mem, s'.mem)
    requires LedgerOf(s.mem, th.wallet).day <= s.mem.day
    requires th.pc.op == Refund ==> th.resDay == s.mem.day
    ensures Fresh(s', AfterRead(s.mem, th, th.pc.op))
  {
  }

  lemma {:induction false} WriteFresh(s: State, s': State, t: nat, c: Choice)
    requires LedgerInv(s) && Stepped(s, s', t, c) && s.threads[t].pc.WriteLedger?
    ensures Fresh(s', s'.threads[t])
  {
    var th := s.threads[t];
    assert Fresh(s, th) && Balanced(s, th.wallet) && Local(th);
    WriteFreshAt(s, s', th);
  }

  lemma {:induction false} WriteFreshAt(s: State, s': State, th: Thread)
    requires th.pc.WriteLedger? && Fresh(s, th) && Local(th)
    requires s'.mem == WriteRow(s.mem, th, th.pc.op)
    ensures Fresh(s', AfterWrite(th, th.pc.op))
  {
  }

  lemma {:induction false} LedgerInvStep(s: State, t: nat, c: Choice)
    requires LedgerInv(s) && Enabled(s, t) && SameDay(s, Step(t, c))
    ensures LedgerInv(Exec(s, Step(t, c)))
  {
    var s' := Exec(s, Step(t, c));
    LockInvExec(s, Step(t, c));
    LocalMove(s.mem, s.threads[t], c);
    assert Stepped(s, s', t, c);
    forall u | 0 <= u < |s'.threads| ensures Fresh(s', s'.threads[u]) {
      if u == t {
        OwnFresh(s, s', t, c);
      } else {
        OtherFresh(s, s', t, c, u);
      }
    }
    forall w ensures Balanced(s', w) {
      StepBalanced(s, s', t, c, w);
    }
  }

  lemma {:induction false} LedgerInvOther(s: State, a: Action)
    requires LedgerInv(s) && !a.Step?
    ensures LedgerInv(Exec(s, a))
  {
    var s' := Exec(s, a);
    LockInvExec(s, a);
    forall u | 0 <= u < |s'.threads| ensures Fresh(s', s'.threads[u]) {
      if u < |s.threads| {
        assert Fresh(s, s.threads[u]);
      }
    }
    forall w ensures Balanced(s', w) {
      assert Balanced(s, w);
    }
  }

  /** The books balance after every run whose refunds happen on the day of their reservation. */
  lemma {:induction false} LedgerInvRun(actions: seq<Action>)
    requires SameDayRun(actions)
    ensures LedgerInv(Run(actions))
  {
    if actions == [] {
      assert forall w :: Balanced(EMPTY, w);
    } else {
      var s, a := Run(actions[..|actions| - 1]), actions[|actions| - 1];
      LedgerInvRun(actions[..|actions| - 1]);
      if a.Step? {
        if Enabled(s, a.t) {
          LedgerInvStep(s, a.t, a.c);
        }
      } else {
        LedgerInvOther(s, a);
      }
    }
  }

  /** After every such run, for every wallet: today's counter is at least the completed spends and at
      most the limit plus what was recorded after the fact. */
  lemma {:induction false} SpentWithinLimit(actions: seq<Action>, w: Wallet)
    requires SameDayRun(actions)
    ensures var mem := Run(actions).mem;
      var l := LedgerOf(mem, w);
      Total(mem.completed, w, l.day) + Total(mem.added, w, l.day) <= l.spent <= w.limit + Total(mem.added, w, l.day)
  {
    LedgerInvRun(actions);
    assert Balanced(Run(actions), w);
  }

  /** After every such run a request that reads the counter to reserve is let through exactly when the
      day's reservations, completed spends and recorded spends leave room for its amount. */
  lemma {:induction false} GrantedExactly(actions: seq<Action>, t: nat, c: Choice)
    requires SameDayRun(actions)
    requires t < |Run(actions).threads| && Run(actions).threads[t].pc == ReadLedger(Deduct)
    ensures var s := Run(actions);
      var th := s.threads[t];
      Move(s.mem, th, c).pc == WriteLedger(Deduct) <==>
        Outstanding(s.threads, th.wallet, s.mem.day) + Total(s.mem.completed, th.wallet, s.mem.day)
        + Total(s.mem.added, th.wallet, s.mem.day) + th.amount <= th.wallet.limit
  {
    LedgerInvRun(actions);
    var s := Run(actions);
    var w := s.threads[t].wallet;
    UsedToday(s, w);
    assert Move(s.mem, s.threads[t], c) == AfterRead(s.mem, s.threads[t], Deduct);
  }

  /** What is left of the counter today is what was reserved, completed and recorded today. */
  lemma {:induction false} UsedToday(s: State, w: Wallet)
    requires LedgerInv(s)
    ensures Base(LedgerOf(s.mem, w), s.mem.day)
      == Outstanding(s.threads, w, s.mem.day) + Total(s.mem.completed, w, s.mem.day) + Total(s.mem.added, w, s.mem.day)
  {
    assert Balanced(s, w);
    if LedgerOf(s.mem, w).day < s.mem.day {
      forall u | 0 <= u < |s.threads| ensures Reserved(s.threads[u], w, s.mem.day) == 0 {
        assert Fresh(s, s.threads[u]);
      }
      OutstandingZero(s.threads, w, s.mem.day);
    }
  }

  /** After every such run a pending refund is covered by the counter, so the clamp at zero changes nothing. */
  lemma {:induction false} ClampNeverFires(actions: seq<Action>, t: nat)
    requires SameDayRun(actions)
    requires t < |Run(actions).threads| && Run(actions).threads[t].pc == WriteLedger(Refund)
    ensures Run(actions).threads[t].reserved <= LedgerOf(Run(actions).mem, Run(actions).threads[t].wallet).spent
  {
    LedgerInvRun(actions);
    var s := Run(actions);
    var th := s.threads[t];
    assert Fresh(s, th) && Balanced(s, th.wallet);
    OutstandingAt(s.threads, t, th.wallet, th.resDay);
  }

  // ----- refunds that cross midnight -----

  /** A refund write keeps a wallet's books balanced exactly when the counter belongs to the day of
      the reservation, or is already empty. */
  lemma {:induction false} RefundExact(s: State, t: nat)
    requires t < |s.threads| && s.threads[t].pc == WriteLedger(Refund) && s.threads[t].reserved > 0
    requires s.threads[t].seen == LedgerOf(s.mem, s.threads[t].wallet) && Balanced(s, s.threads[t].wallet)
    ensures var th := s.threads[t];
      var s' := s.(mem := WriteRow(s.mem, th, Refund), threads := s.threads[t := AfterWrite(th, Refund)]);
      Balanced(s', th.wallet) <==> th.resDay == th.seen.day || th.seen.spent == 0
  {
    var th := s.threads[t];
    OutstandingAt(s.threads, t, th.wallet, th.seen.day);
    OutstandingUpdate(s.threads, t, AfterWrite(th, Refund), th.wallet, th.seen.day);
  }

  /** A refund that finds the counter of an earlier day drops the reservation; that unbalances the
      books exactly when the reservation was made on that earlier day. */
  lemma {:induction false} StaleRefundExact(s: State, t: nat)
    requires t < |s.threads| && s.threads[t].pc == ReadLedger(Refund) && s.threads[t].reserved > 0
    requires Balanced(s, s.threads[t].wallet) && LedgerOf(s.mem, s.threads[t].wallet).day < s.mem.day
    ensures var th := s.threads[t];
      var s' := s.(threads := s.threads[t := AfterRead(s.mem, th, Refund)]);
      Balanced(s', th.wallet) <==> th.resDay != LedgerOf(s.mem, th.wallet).day
  {
    var th := s.threads[t];
    OutstandingUpdate(s.threads, t, AfterRead(s.mem, th, Refund), th.wallet, LedgerOf(s.mem, th.wallet).day);
  }
}
