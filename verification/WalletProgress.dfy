/** Requests that nothing stops (handler/wallet.go, handler/approval.go).

    The other modules say what never happens.  This one says what does: with good answers, free locks
    and room under the limit a transfer reaches the chain and an approval is carried out, whatever
    state the other requests have brought about. */
module WalletProgress {
  import opened WalletModel

  /** Thread `t` stands at `th`, with this memory and these locks taken. */
  ghost predicate Stands(actions: seq<Action>, t: nat, mem: Shared, owner: map<Lock, nat>, th: Thread) {
    var s := Run(actions);
    t < |s.threads| && s.mem == mem && s.owner == owner && s.threads[t] == th
  }

  lemma {:induction false} Go(acts: seq<Action>, t: nat, c: Choice, mem: Shared, owner: map<Lock, nat>, th: Thread)
      returns (acts': seq<Action>)
    requires Stands(acts, t, mem, owner, th) && th.pc != Done && (Op(th).Acquire? ==> Op(th).l !in owner)
    ensures Stands(acts', t, Change(mem, th, c), ApplyOp(owner, Op(th), t), Move(mem, th, c))
  {
    acts' := acts + [Step(t, c)];
  }

  /** Every call succeeds, nothing is late. */
  const GOOD := Choice(true, false, false, false, 0, {})

  function Transferring(req: Request, pc: Pc, nonce: nat): Thread
    requires req.Transfer?
  {
    Spawned(req).(wallet := req.wallet, amount := req.amount, pc := pc, nonce := nonce)
  }

  lemma {:induction false} Starts(mem: Shared, req: Request)
    requires req.Transfer? && req.wallet.evm
    ensures Move(mem, Spawned(req), GOOD) == Transferring(req, WaitAddr, 0)
    ensures Change(mem, Spawned(req), GOOD) == mem && Op(Spawned(req)) == NoLock
  {
  }

  lemma {:induction false} TakesAddr(mem: Shared, req: Request)
    requires req.Transfer? && req.wallet.evm
    ensures var th := Transferring(req, WaitAddr, 0);
      && Move(mem, th, GOOD) == Transferring(req, Build, 0)
      && Change(mem, th, GOOD) == mem && Op(th) == Acquire(AddrLock(req.wallet.addr))
  {
  }

  lemma {:induction false} Builds(mem: Shared, req: Request)
    requires req.Transfer? && req.wallet.evm
    ensures var th := Transferring(req, Build, 0);
      && Move(mem, th, GOOD) == Transferring(req, Quote, PendingCount(mem.chain, req.wallet.addr))
      && Change(mem, th, GOOD) == mem && Op(th) == NoLock
  {
  }

  /** Within an active policy's threshold, and priced if an API key's token transfer; no daily limit. */
  predicate MaySend(req: Request) {
    req.Transfer?
    && (req.wallet.policed ==>
      req.amount <= req.wallet.threshold && (req.token && !req.passkey ==> req.amount > 0))
  }

  predicate Unlimited(w: Wallet) { !w.policed || !w.limited }

  lemma {:induction false} Passes(mem: Shared, req: Request, nonce: nat)
    requires MaySend(req) && (Unlimited(req.wallet) || req.amount == 0)
    ensures var th := Transferring(req, Quote, nonce);
      && Move(mem, th, GOOD) == Transferring(req, Send, nonce)
      && Change(mem, th, GOOD) == mem && Op(th) == NoLock
  {
  }

  lemma {:induction false} Sends(mem: Shared, req: Request, nonce: nat)
    requires req.Transfer? && req.wallet.evm
    ensures var th := Transferring(req, Send, nonce);
      && Move(mem, th, GOOD) == Transferring(req, FreeAddr, nonce).(succeeded := true)
      && Change(mem, th, GOOD).chain == mem.chain + [(req.wallet.addr, nonce)] && Op(th) == NoLock
  {
  }

  lemma {:induction false} FreesAddr(mem: Shared, req: Request, nonce: nat)
    requires req.Transfer? && req.wallet.evm
    ensures var th := Transferring(req, FreeAddr, nonce).(succeeded := true);
      && Move(mem, th, GOOD).pc == Done
      && Change(mem, th, GOOD) == mem && Op(th) == Release(AddrLock(req.wallet.addr))
  {
  }

  lemma {:induction false} ToQuote(acts: seq<Action>, t: nat, req: Request, mem: Shared, owner: map<Lock, nat>)
      returns (acts': seq<Action>)
    requires req.Transfer? && req.wallet.evm && AddrLock(req.wallet.addr) !in owner
    requires Stands(acts, t, mem, owner, Spawned(req))
    ensures Stands(acts', t, mem, owner[AddrLock(req.wallet.addr) := t],
                   Transferring(req, Quote, PendingCount(mem.chain, req.wallet.addr)))
  {
    Starts(mem, req);
    acts' := Go(acts, t, GOOD, mem, owner, Spawned(req));
    TakesAddr(mem, req);
    acts' := Go(acts', t, GOOD, mem, owner, Transferring(req, WaitAddr, 0));
    Builds(mem, req);
    acts' := Go(acts', t, GOOD, mem, owner[AddrLock(req.wallet.addr) := t], Transferring(req, Build, 0));
  }

  lemma {:induction false} SendPlain(acts: seq<Action>, t: nat, req: Request, nonce: nat, mem: Shared, owner: map<Lock, nat>)
      returns (acts': seq<Action>)
    requires req.Transfer? && req.wallet.evm && AddrLock(req.wallet.addr) !in owner
    requires Stands(acts, t, mem, owner[AddrLock(req.wallet.addr) := t], Transferring(req, Send, nonce))
    ensures t < |Run(acts').threads| && Run(acts').threads[t].pc == Done && Run(acts').owner == owner
    ensures Run(acts').mem.chain == mem.chain + [(req.wallet.addr, nonce)]
  {
    var l := AddrLock(req.wallet.addr);
    Sends(mem, req, nonce);
    var sent := Change(mem, Transferring(req, Send, nonce), GOOD);
    acts' := Go(acts, t, GOOD, mem, owner[l := t], Transferring(req, Send, nonce));
    FreesAddr(sent, req, nonce);
    acts' := Go(acts', t, GOOD, sent, owner[l := t], Transferring(req, FreeAddr, nonce).(succeeded := true));
    assert owner[l := t] - {l} == owner;
  }

  /** From any state: a transfer that needs no approval, from an EVM wallet without a daily limit whose
      address lock is free, has a way to the chain with the pending nonce, and frees the lock. */
  lemma {:induction false} TransferGoesThrough(acts: seq<Action>, t: nat, req: Request) returns (acts': seq<Action>)
    requires t < |Run(acts).threads| && Run(acts).threads[t] == Spawned(req)
    requires MaySend(req) && req.wallet.evm && (Unlimited(req.wallet) || req.amount == 0)
    requires AddrLock(req.wallet.addr) !in Run(acts).owner
    ensures t < |Run(acts').threads| && Run(acts').threads[t].pc == Done && Run(acts').owner == Run(acts).owner
    ensures Run(acts').mem.chain
      == Run(acts).mem.chain + [(req.wallet.addr, PendingCount(Run(acts).mem.chain, req.wallet.addr))]
  {
    var mem, owner, l := Run(acts).mem, Run(acts).owner, AddrLock(req.wallet.addr);
    var nonce := PendingCount(mem.chain, req.wallet.addr);
    acts' := ToQuote(acts, t, req, mem, owner);
    Passes(mem, req, nonce);
    acts' := Go(acts', t, GOOD, mem, owner[l := t], Transferring(req, Quote, nonce));
    acts' := SendPlain(acts', t, req, nonce, mem, owner);
  }

  // ----- with a daily limit -----

  function Reserving(req: Request, pc: Pc, nonce: nat, l: Ledger, today: nat): Thread
    requires req.Transfer?
  {
    Transferring(req, pc, nonce).(seen := l, today := today)
  }

  function Reserved(req: Request, pc: Pc, nonce: nat, l: Ledger, today: nat): Thread
    requires req.Transfer?
  {
    Reserving(req, pc, nonce, l, today).(reserved := req.amount, deducted := true, resDay := LedgerDay(l, today))
  }

  /** The day's counter leaves room for the amount. */
  predicate HasRoom(mem: Shared, req: Request)
    requires req.Transfer?
  {
    && req.wallet.policed && req.wallet.limited && req.amount > 0
    && Base(LedgerOf(mem, req.wallet), mem.day) + req.amount <= req.wallet.limit
  }

  lemma {:induction false} TakesShard(mem: Shared, req: Request, nonce: nat)
    requires MaySend(req) && HasRoom(mem, req)
    ensures var th := Transferring(req, Quote, nonce);
      && Move(mem, th, GOOD) == Transferring(req, WaitShard(Deduct), nonce)
      && Change(mem, th, GOOD) == mem && Op(th) == NoLock
    ensures var th := Transferring(req, WaitShard(Deduct), nonce);
      && Move(mem, th, GOOD) == Transferring(req, ReadLedger(Deduct), nonce)
      && Change(mem, th, GOOD) == mem && Op(th) == Acquire(ShardLock(req.wallet.shard))
  {
  }

  lemma {:induction false} Reserves(mem: Shared, req: Request, nonce: nat, l: Ledger)
    requires MaySend(req) && HasRoom(mem, req) && l == LedgerOf(mem, req.wallet)
    ensures var th := Transferring(req, ReadLedger(Deduct), nonce);
      && Move(mem, th, GOOD) == Reserving(req, WriteLedger(Deduct), nonce, l, mem.day)
      && Change(mem, th, GOOD) == mem && Op(th) == NoLock
    ensures var th := Reserving(req, WriteLedger(Deduct), nonce, l, mem.day);
      && Move(mem, th, GOOD) == Reserved(req, FreeShard(Deduct), nonce, l, mem.day)
      && Change(mem, th, GOOD) == mem.(ledger := mem.ledger[req.wallet := Debited(l, mem.day, req.amount)])
      && Op(th) == NoLock
  {
  }

  lemma {:induction false} FreesShard(mem: Shared, req: Request, nonce: nat, l: Ledger, today: nat)
    requires MaySend(req) && req.amount > 0
    ensures var th := Reserved(req, FreeShard(Deduct), nonce, l, today);
      && Move(mem, th, GOOD) == Reserved(req, Send, nonce, l, today)
      && Change(mem, th, GOOD) == mem && Op(th) == Release(ShardLock(req.wallet.shard))
  {
  }

  lemma {:induction false} SendsReserved(mem: Shared, req: Request, nonce: nat, l: Ledger, today: nat)
    requires req.Transfer? && req.wallet.evm
    ensures var th := Reserved(req, Send, nonce, l, today);
      && Move(mem, th, GOOD) == Reserved(req, FreeAddr, nonce, l, today).(succeeded := true, reserved := 0)
      && Change(mem, th, GOOD).chain == mem.chain + [(req.wallet.addr, nonce)]
      && Change(mem, th, GOOD).ledger == mem.ledger && Op(th) == NoLock
  {
  }

  lemma {:induction false} FreesAddrReserved(mem: Shared, req: Request, nonce: nat, l: Ledger, today: nat)
    requires req.Transfer? && req.wallet.evm
    ensures var th := Reserved(req, FreeAddr, nonce, l, today).(succeeded := true, reserved := 0);
      && Move(mem, th, GOOD).pc == Done
      && Change(mem, th, GOOD) == mem && Op(th) == Release(AddrLock(req.wallet.addr))
  {
  }

  lemma {:induction false} ToLedger(acts: seq<Action>, t: nat, req: Request, nonce: nat, mem: Shared, owner: map<Lock, nat>)
      returns (acts': seq<Action>)
    requires MaySend(req) && HasRoom(mem, req) && ShardLock(req.wallet.shard) !in owner
    requires Stands(acts, t, mem, owner, Transferring(req, Quote, nonce))
    ensures Stands(acts', t, mem, owner[ShardLock(req.wallet.shard) := t], Transferring(req, ReadLedger(Deduct), nonce))
  {
    TakesShard(mem, req, nonce);
    acts' := Go(acts, t, GOOD, mem, owner, Transferring(req, Quote, nonce));
    acts' := Go(acts', t, GOOD, mem, owner, Transferring(req, WaitShard(Deduct), nonce));
  }

  lemma {:induction false} WriteDebit(acts: seq<Action>, t: nat, req: Request, nonce: nat, mem: Shared, owner: map<Lock, nat>, l: Ledger)
      returns (acts': seq<Action>)
    requires MaySend(req) && HasRoom(mem, req) && l == LedgerOf(mem, req.wallet)
    requires Stands(acts, t, mem, owner, Transferring(req, ReadLedger(Deduct), nonce))
    ensures Stands(acts', t, mem.(ledger := mem.ledger[req.wallet := Debited(l, mem.day, req.amount)]), owner,
                   Reserved(req, FreeShard(Deduct), nonce, l, mem.day))
  {
    Reserves(mem, req, nonce, l);
    acts' := Go(acts, t, GOOD, mem, owner, Transferring(req, ReadLedger(Deduct), nonce));
    acts' := Go(acts', t, GOOD, mem, owner, Reserving(req, WriteLedger(Deduct), nonce, l, mem.day));
  }

  lemma {:induction false} LeaveShard(acts: seq<Action>, t: nat, req: Request, nonce: nat, mem: Shared, owner: map<Lock, nat>, l: Ledger, today: nat)
      returns (acts': seq<Action>)
    requires MaySend(req) && req.amount > 0 && ShardLock(req.wallet.shard) !in owner
    requires Stands(acts, t, mem, owner[ShardLock(req.wallet.shard) := t], Reserved(req, FreeShard(Deduct), nonce, l, today))
    ensures Stands(acts', t, mem, owner, Reserved(req, Send, nonce, l, today))
  {
    var k := ShardLock(req.wallet.shard);
    FreesShard(mem, req, nonce, l, today);
    acts' := Go(acts, t, GOOD, mem, owner[k := t], Reserved(req, FreeShard(Deduct), nonce, l, today));
    assert owner[k := t] - {k} == owner;
  }

  lemma {:induction false} SendReserved(acts: seq<Action>, t: nat, req: Request, nonce: nat, mem: Shared, owner: map<Lock, nat>, l: Ledger, today: nat)
      returns (acts': seq<Action>)
    requires req.Transfer? && req.wallet.evm && AddrLock(req.wallet.addr) !in owner
    requires Stands(acts, t, mem, owner[AddrLock(req.wallet.addr) := t], Reserved(req, Send, nonce, l, today))
    ensures t < |Run(acts').threads| && Run(acts').threads[t].pc == Done && Run(acts').owner == owner
    ensures Run(acts').mem.chain == mem.chain + [(req.wallet.addr, nonce)] && Run(acts').mem.ledger == mem.ledger
  {
    var k := AddrLock(req.wallet.addr);
    SendsReserved(mem, req, nonce, l, today);
    var sent := Change(mem, Reserved(req, Send, nonce, l, today), GOOD);
    acts' := Go(acts, t, GOOD, mem, owner[k := t], Reserved(req, Send, nonce, l, today));
    FreesAddrReserved(sent, req, nonce, l, today);
    acts' := Go(acts', t, GOOD, sent, owner[k := t], Reserved(req, FreeAddr, nonce, l, today).(succeeded := true, reserved := 0));
    assert owner[k := t] - {k} == owner;
  }

  /** The same with a daily limit that leaves room: the amount is counted and stays counted. */
  lemma {:induction false} LimitedGoesThrough(acts: seq<Action>, t: nat, req: Request) returns (acts': seq<Action>)
    requires t < |Run(acts).threads| && Run(acts).threads[t] == Spawned(req)
    requires MaySend(req) && req.wallet.evm && HasRoom(Run(acts).mem, req)
    requires AddrLock(req.wallet.addr) !in Run(acts).owner && ShardLock(req.wallet.shard) !in Run(acts).owner
    ensures t < |Run(acts').threads| && Run(acts').threads[t].pc == Done && Run(acts').owner == Run(acts).owner
    ensures var mem, mem' := Run(acts).mem, Run(acts').mem;
      && mem'.chain == mem.chain + [(req.wallet.addr, PendingCount(mem.chain, req.wallet.addr))]
      && LedgerOf(mem', req.wallet).spent == Base(LedgerOf(mem, req.wallet), mem.day) + req.amount
  {
    var mem, owner, k := Run(acts).mem, Run(acts).owner, AddrLock(req.wallet.addr);
    var nonce, l := PendingCount(mem.chain, req.wallet.addr), LedgerOf(mem, req.wallet);
    acts' := ToQuote(acts, t, req, mem, owner);
    acts' := ToLedger(acts', t, req, nonce, mem, owner[k := t]);
    acts' := WriteDebit(acts', t, req, nonce, mem, owner[k := t][ShardLock(req.wallet.shard) := t], l);
    var mem' := mem.(ledger := mem.ledger[req.wallet := Debited(l, mem.day, req.amount)]);
    acts' := LeaveShard(acts', t, req, nonce, mem', owner[k := t], l, mem.day);
    acts' := SendReserved(acts', t, req, nonce, mem', owner, l, mem.day);
  }

  // ----- approvals -----

  function ApproverAt(id: nat, row: Row, pc: Pc, gen: nat, nonce: nat, succeeded: bool): Thread {
    Spawned(Approve(id)).(id := id, config := row.config, wallet := row.wallet, amount := row.amount,
                          pc := pc, gen := gen, nonce := nonce, succeeded := succeeded)
  }

  /** The generation of the mutex a request on the row will ask for. */
  function MutexOf(mem: Shared, id: nat): nat { if id in mem.mutexOf then mem.mutexOf[id] else mem.next }

  function WithMutex(mem: Shared, id: nat): Shared {
    if id in mem.mutexOf then mem else mem.(mutexOf := mem.mutexOf[id := mem.next], next := mem.next + 1)
  }

  lemma {:induction false} TakesMutex(mem: Shared, id: nat, row: Row)
    requires id in mem.rows && mem.rows[id] == row
    ensures Move(mem, Spawned(Approve(id)), GOOD) == ApproverAt(id, row, GetMutex, 0, 0, false)
    ensures Change(mem, Spawned(Approve(id)), GOOD) == mem && Op(Spawned(Approve(id))) == NoLock
    ensures var th := ApproverAt(id, row, GetMutex, 0, 0, false);
      && Move(mem, th, GOOD) == ApproverAt(id, row, WaitMutex, MutexOf(mem, id), 0, false)
      && Change(mem, th, GOOD) == WithMutex(mem, id) && Op(th) == NoLock
  {
  }

  lemma {:induction false} ChecksRow(mem: Shared, id: nat, row: Row, gen: nat)
    requires IsPending(mem, id)
    ensures var th := ApproverAt(id, row, WaitMutex, gen, 0, false);
      && Move(mem, th, GOOD) == ApproverAt(id, row, Check, gen, 0, false)
      && Change(mem, th, GOOD) == mem && Op(th) == Acquire(ApprovalLock(id, gen))
    ensures var th := ApproverAt(id, row, Check, gen, 0, false);
      && Move(mem, th, GOOD) == ApproverAt(id, row, Past, gen, 0, false)
      && Change(mem, th, GOOD) == mem && Op(th) == NoLock
  {
  }

  lemma {:induction false} ToPast(acts: seq<Action>, t: nat, id: nat, mem: Shared, owner: map<Lock, nat>)
      returns (acts': seq<Action>)
    requires IsPending(mem, id) && ApprovalLock(id, MutexOf(mem, id)) !in owner
    requires Stands(acts, t, mem, owner, Spawned(Approve(id)))
    ensures Stands(acts', t, WithMutex(mem, id), owner[ApprovalLock(id, MutexOf(mem, id)) := t],
                   ApproverAt(id, mem.rows[id], Past, MutexOf(mem, id), 0, false))
  {
    var row, gen, mem' := mem.rows[id], MutexOf(mem, id), WithMutex(mem, id);
    TakesMutex(mem, id, row);
    acts' := Go(acts, t, GOOD, mem, owner, Spawned(Approve(id)));
    acts' := Go(acts', t, GOOD, mem, owner, ApproverAt(id, row, GetMutex, 0, 0, false));
    ChecksRow(mem', id, row, gen);
    acts' := Go(acts', t, GOOD, mem', owner, ApproverAt(id, row, WaitMutex, gen, 0, false));
    acts' := Go(acts', t, GOOD, mem', owner[ApprovalLock(id, gen) := t], ApproverAt(id, row, Check, gen, 0, false));
  }

  lemma {:induction false} Applies(mem: Shared, id: nat, row: Row, gen: nat)
    requires row.config
    ensures var th := ApproverAt(id, row, Past, gen, 0, false);
      && Move(mem, th, GOOD) == ApproverAt(id, row, Resolve, gen, 0, true)
      && Change(mem, th, GOOD) == Emit(mem, Applied(id)) && Op(th) == NoLock
    ensures var th := ApproverAt(id, row, Resolve, gen, 0, true);
      && Move(mem, th, GOOD) == ApproverAt(id, row, FreeMutex, gen, 0, true)
      && Change(mem, th, GOOD) == SetStatus(mem, id, Approved) && Op(th) == NoLock
  {
  }

  lemma {:induction false} FreesMutex(mem: Shared, id: nat, row: Row, gen: nat, nonce: nat)
    ensures var th := ApproverAt(id, row, FreeMutex, gen, nonce, true);
      && Move(mem, th, GOOD).pc == Done
      && Change(mem, th, GOOD) == mem && Op(th) == Release(ApprovalLock(id, gen))
  {
  }

  lemma {:induction false} LabelSettings(acts: seq<Action>, t: nat, id: nat, mem: Shared, owner: map<Lock, nat>, row: Row, gen: nat)
      returns (acts': seq<Action>)
    requires row.config && ApprovalLock(id, gen) !in owner
    requires Stands(acts, t, mem, owner[ApprovalLock(id, gen) := t], ApproverAt(id, row, Resolve, gen, 0, true))
    ensures t < |Run(acts').threads| && Run(acts').threads[t].pc == Done
    ensures Run(acts').owner == owner && Run(acts').mem == SetStatus(mem, id, Approved)
  {
    var k := ApprovalLock(id, gen);
    Applies(mem, id, row, gen);
    acts' := Go(acts, t, GOOD, mem, owner[k := t], ApproverAt(id, row, Resolve, gen, 0, true));
    FreesMutex(SetStatus(mem, id, Approved), id, row, gen, 0);
    acts' := Go(acts', t, GOOD, SetStatus(mem, id, Approved), owner[k := t], ApproverAt(id, row, FreeMutex, gen, 0, true));
    assert owner[k := t] - {k} == owner;
  }

  /** From any state: approving a pending row of settings whose mutex is free applies them once, labels
      the row and frees the mutex. */
  lemma {:induction false} SettingsGoThrough(acts: seq<Action>, t: nat, id: nat) returns (acts': seq<Action>)
    requires t < |Run(acts).threads| && Run(acts).threads[t] == Spawned(Approve(id))
    requires IsPending(Run(acts).mem, id) && Run(acts).mem.rows[id].config
    requires ApprovalLock(id, MutexOf(Run(acts).mem, id)) !in Run(acts).owner
    ensures t < |Run(acts').threads| && Run(acts').threads[t].pc == Done && Run(acts').owner == Run(acts).owner
    ensures Run(acts').mem.effects == Run(acts).mem.effects + [Applied(id)]
    ensures Run(acts').mem.rows == Run(acts).mem.rows[id := Run(acts).mem.rows[id].(status := Approved)]
  {
    var mem, owner := Run(acts).mem, Run(acts).owner;
    var row, gen, mem' := mem.rows[id], MutexOf(mem, id), WithMutex(mem, id);
    var k := ApprovalLock(id, gen);
    acts' := ToPast(acts, t, id, mem, owner);
    Applies(mem', id, row, gen);
    acts' := Go(acts', t, GOOD, mem', owner[k := t], ApproverAt(id, row, Past, gen, 0, false));
    acts' := LabelSettings(acts', t, id, Emit(mem', Applied(id)), owner, row, gen);
  }

  lemma {:induction false} BuildsApproved(mem: Shared, id: nat, row: Row, gen: nat)
    requires !row.config && row.wallet.evm
    ensures var th := ApproverAt(id, row, Past, gen, 0, false);
      && Move(mem, th, GOOD) == ApproverAt(id, row, WaitAddr, gen, 0, false)
      && Change(mem, th, GOOD) == mem && Op(th) == NoLock
    ensures var th := ApproverAt(id, row, WaitAddr, gen, 0, false);
      && Move(mem, th, GOOD) == ApproverAt(id, row, Build, gen, 0, false)
      && Change(mem, th, GOOD) == mem && Op(th) == Acquire(AddrLock(row.wallet.addr))
    ensures var th := ApproverAt(id, row, Build, gen, 0, false);
      && Move(mem, th, GOOD) == ApproverAt(id, row, Quote, gen, PendingCount(mem.chain, row.wallet.addr), false)
      && Change(mem, th, GOOD) == mem && Op(th) == NoLock
  {
  }

  lemma {:induction false} SendsApproved(mem: Shared, id: nat, row: Row, gen: nat, nonce: nat)
    requires !row.config && row.wallet.evm
    ensures var th := ApproverAt(id, row, Quote, gen, nonce, false);
      && Move(mem, th, GOOD) == ApproverAt(id, row, Send, gen, nonce, false)
      && Change(mem, th, GOOD) == mem && Op(th) == NoLock
    ensures var th := ApproverAt(id, row, Send, gen, nonce, false);
      && Move(mem, th, GOOD) == ApproverAt(id, row, Resolve, gen, nonce, true) && Op(th) == NoLock
      && Change(mem, th, GOOD).chain == mem.chain + [(row.wallet.addr, nonce)]
      && Change(mem, th, GOOD).effects == mem.effects + [Attempted(id, true)]
      && Change(mem, th, GOOD).rows == mem.rows
  {
  }

  lemma {:induction false} LabelsApproved(mem: Shared, id: nat, row: Row, gen: nat, nonce: nat)
    requires !row.config && row.wallet.evm
    ensures var th := ApproverAt(id, row, Resolve, gen, nonce, true);
      && Move(mem, th, GOOD) == ApproverAt(id, row, FreeAddr, gen, nonce, true)
      && Change(mem, th, GOOD) == SetStatus(mem, id, Approved) && Op(th) == NoLock
    ensures var th := ApproverAt(id, row, FreeAddr, gen, nonce, true);
      && Move(mem, th, GOOD) == ApproverAt(id, row, FreeMutex, gen, nonce, true)
      && Change(mem, th, GOOD) == mem && Op(th) == Release(AddrLock(row.wallet.addr))
  {
  }

  lemma {:induction false} ApprovedToQuote(acts: seq<Action>, t: nat, id: nat, mem: Shared, owner: map<Lock, nat>, row: Row, gen: nat)
      returns (acts': seq<Action>)
    requires !row.config && row.wallet.evm && AddrLock(row.wallet.addr) !in owner
    requires Stands(acts, t, mem, owner, ApproverAt(id, row, Past, gen, 0, false))
    ensures Stands(acts', t, mem, owner[AddrLock(row.wallet.addr) := t],
                   ApproverAt(id, row, Quote, gen, PendingCount(mem.chain, row.wallet.addr), false))
  {
    BuildsApproved(mem, id, row, gen);
    acts' := Go(acts, t, GOOD, mem, owner, ApproverAt(id, row, Past, gen, 0, false));
    acts' := Go(acts', t, GOOD, mem, owner, ApproverAt(id, row, WaitAddr, gen, 0, false));
    acts' := Go(acts', t, GOOD, mem, owner[AddrLock(row.wallet.addr) := t], ApproverAt(id, row, Build, gen, 0, false));
  }

  lemma {:induction false} ApprovedToSent(acts: seq<Action>, t: nat, id: nat, mem: Shared, owner: map<Lock, nat>, row: Row, gen: nat, nonce: nat)
      returns (acts': seq<Action>, sent: Shared)
    requires !row.config && row.wallet.evm
    requires Stands(acts, t, mem, owner, ApproverAt(id, row, Quote, gen, nonce, false))
    ensures Stands(acts', t, sent, owner, ApproverAt(id, row, Resolve, gen, nonce, true))
    ensures sent.chain == mem.chain + [(row.wallet.addr, nonce)] && sent.rows == mem.rows
    ensures sent.effects == mem.effects + [Attempted(id, true)]
  {
    SendsApproved(mem, id, row, gen, nonce);
    acts' := Go(acts, t, GOOD, mem, owner, ApproverAt(id, row, Quote, gen, nonce, false));
    acts' := Go(acts', t, GOOD, mem, owner, ApproverAt(id, row, Send, gen, nonce, false));
    sent := Change(mem, ApproverAt(id, row, Send, gen, nonce, false), GOOD);
  }

  lemma {:induction false} ApprovedToFree(acts: seq<Action>, t: nat, id: nat, mem: Shared, owner: map<Lock, nat>, row: Row, gen: nat, nonce: nat)
      returns (acts': seq<Action>)
    requires !row.config && row.wallet.evm && AddrLock(row.wallet.addr) !in owner
    requires Stands(acts, t, mem, owner[AddrLock(row.wallet.addr) := t], ApproverAt(id, row, Resolve, gen, nonce, true))
    ensures Stands(acts', t, SetStatus(mem, id, Approved), owner, ApproverAt(id, row, FreeMutex, gen, nonce, true))
  {
    var mem', a := SetStatus(mem, id, Approved), AddrLock(row.wallet.addr);
    LabelsApproved(mem, id, row, gen, nonce);
    acts' := Go(acts, t, GOOD, mem, owner[a := t], ApproverAt(id, row, Resolve, gen, nonce, true));
    LabelsApproved(mem', id, row, gen, nonce);
    acts' := Go(acts', t, GOOD, mem', owner[a := t], ApproverAt(id, row, FreeAddr, gen, nonce, true));
    assert owner[a := t] - {a} == owner;
  }

  lemma {:induction false} FreeApproved(acts: seq<Action>, t: nat, id: nat, mem: Shared, owner: map<Lock, nat>, row: Row, gen: nat, nonce: nat)
      returns (acts': seq<Action>)
    requires ApprovalLock(id, gen) !in owner
    requires Stands(acts, t, mem, owner[ApprovalLock(id, gen) := t], ApproverAt(id, row, FreeMutex, gen, nonce, true))
    ensures t < |Run(acts').threads| && Run(acts').threads[t].pc == Done
    ensures Run(acts').owner == owner && Run(acts').mem == mem
  {
    var k := ApprovalLock(id, gen);
    FreesMutex(mem, id, row, gen, nonce);
    acts' := Go(acts, t, GOOD, mem, owner[k := t], ApproverAt(id, row, FreeMutex, gen, nonce, true));
    assert owner[k := t] - {k} == owner;
  }

  lemma {:induction false} CarryOut(acts: seq<Action>, t: nat, id: nat, mem: Shared, owner: map<Lock, nat>, row: Row, gen: nat)
      returns (acts': seq<Action>, sent: Shared)
    requires !row.config && row.wallet.evm && AddrLock(row.wallet.addr) !in owner
    requires Stands(acts, t, mem, owner, ApproverAt(id, row, Past, gen, 0, false))
    ensures Stands(acts', t, SetStatus(sent, id, Approved), owner,
                   ApproverAt(id, row, FreeMutex, gen, PendingCount(mem.chain, row.wallet.addr), true))
    ensures sent.chain == mem.chain + [(row.wallet.addr, PendingCount(mem.chain, row.wallet.addr))]
    ensures sent.rows == mem.rows && sent.effects == mem.effects + [Attempted(id, true)]
  {
    var a, nonce := AddrLock(row.wallet.addr), PendingCount(mem.chain, row.wallet.addr);
    acts' := ApprovedToQuote(acts, t, id, mem, owner, row, gen);
    acts', sent := ApprovedToSent(acts', t, id, mem, owner[a := t], row, gen, nonce);
    acts' := ApprovedToFree(acts', t, id, sent, owner, row, gen, nonce);
  }

  /** From any state: approving a pending EVM spend whose two locks are free puts one transaction on the
      chain with the pending nonce, labels the row and frees both locks. */
  lemma {:induction false} ApprovalGoesThrough(acts: seq<Action>, t: nat, id: nat) returns (acts': seq<Action>)
    requires t < |Run(acts).threads| && Run(acts).threads[t] == Spawned(Approve(id))
    requires IsPending(Run(acts).mem, id) && !Run(acts).mem.rows[id].config && Run(acts).mem.rows[id].wallet.evm
    requires ApprovalLock(id, MutexOf(Run(acts).mem, id)) !in Run(acts).owner
    requires AddrLock(Run(acts).mem.rows[id].wallet.addr) !in Run(acts).owner
    ensures t < |Run(acts').threads| && Run(acts').threads[t].pc == Done && Run(acts').owner == Run(acts).owner
    ensures var mem, mem' := Run(acts).mem, Run(acts').mem;
      var addr := mem.rows[id].wallet.addr;
      && mem'.chain == mem.chain + [(addr, PendingCount(mem.chain, addr))]
      && mem'.effects == mem.effects + [Attempted(id, true)]
      && mem'.rows == mem.rows[id := mem.rows[id].(status := Approved)]
  {
    var mem, owner := Run(acts).mem, Run(acts).owner;
    var row, gen := mem.rows[id], MutexOf(mem, id);
    var k, nonce := ApprovalLock(id, gen), PendingCount(mem.chain, row.wallet.addr);
    acts' := ToPast(acts, t, id, mem, owner);
    var sent;
    acts', sent := CarryOut(acts', t, id, WithMutex(mem, id), owner[k := t], row, gen);
    acts' := FreeApproved(acts', t, id, SetStatus(sent, id, Approved), owner, row, gen, nonce);
  }

  // ----- rejections and mutexes -----

  function RejecterAt(id: nat, pc: Pc, gen: nat): Thread {
    Spawned(Reject(id)).(id := id, config := true, pc := pc, gen := gen)
  }

  lemma {:induction false} RejectBegins(mem: Shared, id: nat)
    requires id in mem.rows
    ensures Move(mem, Spawned(Reject(id)), GOOD) == RejecterAt(id, GetMutex, 0)
    ensures Change(mem, Spawned(Reject(id)), GOOD) == mem && Op(Spawned(Reject(id))) == NoLock
    ensures var th := RejecterAt(id, GetMutex, 0);
      && Move(mem, th, GOOD) == RejecterAt(id, WaitMutex, MutexOf(mem, id))
      && Change(mem, th, GOOD) == WithMutex(mem, id) && Op(th) == NoLock
  {
  }

  lemma {:induction false} RejectChecks(mem: Shared, id: nat, gen: nat)
    requires IsPending(mem, id)
    ensures var th := RejecterAt(id, WaitMutex, gen);
      && Move(mem, th, GOOD) == RejecterAt(id, Check, gen)
      && Change(mem, th, GOOD) == mem && Op(th) == Acquire(ApprovalLock(id, gen))
    ensures var th := RejecterAt(id, Check, gen);
      && Move(mem, th, GOOD) == RejecterAt(id, RejectWrite, gen)
      && Change(mem, th, GOOD) == mem && Op(th) == NoLock
  {
  }

  lemma {:induction false} RejectWrites(mem: Shared, id: nat, gen: nat)
    ensures var th := RejecterAt(id, RejectWrite, gen);
      && Move(mem, th, GOOD) == RejecterAt(id, FreeMutex, gen)
      && Change(mem, th, GOOD) == Emit(SetStatus(mem, id, Rejected), Refused(id)) && Op(th) == NoLock
    ensures var th := RejecterAt(id, FreeMutex, gen);
      && Move(mem, th, GOOD).pc == Done
      && Change(mem, th, GOOD) == mem && Op(th) == Release(ApprovalLock(id, gen))
  {
  }

  lemma {:induction false} ToReject(acts: seq<Action>, t: nat, id: nat, mem: Shared, owner: map<Lock, nat>)
      returns (acts': seq<Action>)
    requires IsPending(mem, id) && ApprovalLock(id, MutexOf(mem, id)) !in owner
    requires Stands(acts, t, mem, owner, Spawned(Reject(id)))
    ensures Stands(acts', t, WithMutex(mem, id), owner[ApprovalLock(id, MutexOf(mem, id)) := t],
                   RejecterAt(id, RejectWrite, MutexOf(mem, id)))
  {
    var gen, mem' := MutexOf(mem, id), WithMutex(mem, id);
    RejectBegins(mem, id);
    acts' := Go(acts, t, GOOD, mem, owner, Spawned(Reject(id)));
    acts' := Go(acts', t, GOOD, mem, owner, RejecterAt(id, GetMutex, 0));
    RejectChecks(mem', id, gen);
    acts' := Go(acts', t, GOOD, mem', owner, RejecterAt(id, WaitMutex, gen));
    acts' := Go(acts', t, GOOD, mem', owner[ApprovalLock(id, gen) := t], RejecterAt(id, Check, gen));
  }

  lemma {:induction false} LeaveRejected(acts: seq<Action>, t: nat, id: nat, mem: Shared, owner: map<Lock, nat>, gen: nat)
      returns (acts': seq<Action>)
    requires ApprovalLock(id, gen) !in owner
    requires Stands(acts, t, mem, owner[ApprovalLock(id, gen) := t], RejecterAt(id, RejectWrite, gen))
    ensures t < |Run(acts').threads| && Run(acts').threads[t].pc == Done && Run(acts').owner == owner
    ensures Run(acts').mem == Emit(SetStatus(mem, id, Rejected), Refused(id))
  {
    var k, mem' := ApprovalLock(id, gen), Emit(SetStatus(mem, id, Rejected), Refused(id));
    RejectWrites(mem, id, gen);
    acts' := Go(acts, t, GOOD, mem, owner[k := t], RejecterAt(id, RejectWrite, gen));
    RejectWrites(mem', id, gen);
    acts' := Go(acts', t, GOOD, mem', owner[k := t], RejecterAt(id, FreeMutex, gen));
    assert owner[k := t] - {k} == owner;
  }

  /** From any state: rejecting a pending row whose mutex is free labels it, once, and frees the mutex. */
  lemma {:induction false} RejectionGoesThrough(acts: seq<Action>, t: nat, id: nat) returns (acts': seq<Action>)
    requires t < |Run(acts).threads| && Run(acts).threads[t] == Spawned(Reject(id))
    requires IsPending(Run(acts).mem, id) && ApprovalLock(id, MutexOf(Run(acts).mem, id)) !in Run(acts).owner
    ensures t < |Run(acts').threads| && Run(acts').threads[t].pc == Done && Run(acts').owner == Run(acts).owner
    ensures Run(acts').mem.effects == Run(acts).mem.effects + [Refused(id)]
    ensures Run(acts').mem.rows == Run(acts).mem.rows[id := Run(acts).mem.rows[id].(status := Rejected)]
  {
    var mem, owner := Run(acts).mem, Run(acts).owner;
    acts' := ToReject(acts, t, id, mem, owner);
    acts' := LeaveRejected(acts', t, id, WithMutex(mem, id), owner, MutexOf(mem, id));
  }

  function CollectorOf(id: nat): Thread { Spawned(Collect(id)).(id := id, pc := CollectDelete) }

  lemma {:induction false} Collects(mem: Shared, id: nat)
    requires id in mem.mutexOf && !IsPending(mem, id)
    ensures Move(mem, Spawned(Collect(id)), GOOD) == CollectorOf(id)
    ensures Change(mem, Spawned(Collect(id)), GOOD) == mem && Op(Spawned(Collect(id))) == NoLock
    ensures Move(mem, CollectorOf(id), GOOD).pc == Done && Op(CollectorOf(id)) == NoLock
    ensures Change(mem, CollectorOf(id), GOOD) == mem.(mutexOf := mem.mutexOf - {id})
  {
  }

  /** From any state: the collector can drop the mutex of a row that is not pending, held or not, and
      changes nothing else. */
  lemma {:induction false} MutexCollected(acts: seq<Action>, t: nat, id: nat) returns (acts': seq<Action>)
    requires t < |Run(acts).threads| && Run(acts).threads[t] == Spawned(Collect(id))
    requires id in Run(acts).mem.mutexOf && !IsPending(Run(acts).mem, id)
    ensures t < |Run(acts').threads| && Run(acts').threads[t].pc == Done && Run(acts').owner == Run(acts).owner
    ensures Run(acts').mem == Run(acts).mem.(mutexOf := Run(acts).mem.mutexOf - {id})
  {
    var mem, owner := Run(acts).mem, Run(acts).owner;
    Collects(mem, id);
    acts' := Go(acts, t, GOOD, mem, owner, Spawned(Collect(id)));
    acts' := Go(acts', t, GOOD, mem, owner, CollectorOf(id));
  }
}
