/** The concurrent wallet backend as a step machine (handler/approval.go, handler/wallet.go,
    handler/contract_call.go, chain/addr_lock.go).

    A thread is one request in flight.  `Move` is its next local state, `Change` what it does to
    shared memory, `Op` the lock it takes or drops; between any two steps any other thread may run.
    A run is an arbitrary sequence of actions, so a statement about every action sequence is a
    statement about every interleaving.  Database writes succeed and new row ids are fresh. */
module WalletModel {

  /** A wallet and its fixed configuration: EVM or not, its address, its mutex shard, and its policy,
      unchanged during the run: whether one is enabled, its threshold, and its daily limit if it has
      one, in micro-USD. */
  datatype Wallet = Wallet(
    key: nat, evm: bool, addr: nat, shard: nat, policed: bool, threshold: nat, limited: bool, limit: nat)

  const NOBODY := Wallet(0, false, 0, 0, false, 0, false, 0)

  datatype Status = Pending | Approved | Rejected | Expired | Failed

  /** An approval row; `config` rows change settings, the others spend from a wallet. */
  datatype Row = Row(status: Status, config: bool, wallet: Wallet, amount: nat)

  /** Amounts are what the price sources make of a request, in micro-USD; zero without a price. */
  datatype Request =
    | Transfer(wallet: Wallet, amount: nat, token: bool, passkey: bool)   // /transfer and /wrap-sol
    | Call(wallet: Wallet, amount: nat, passkey: bool)                    // contract calls and token approvals
    | Propose                                         // an API key proposes a settings change
    | Approve(id: nat)
    | Reject(id: nat)
    | View(id: nat)                                   // GetApproval with its auto-expire
    | Sweep                                           // one tick of the expiry loop
    | Collect(id: nat)                                // one key of the mutex garbage collector

  datatype LedgerOp = Deduct | Refund | Record

  datatype Pc =
    | Start
    | GetMutex | WaitMutex | Check | MarkExpired | RejectWrite | Past
    | WaitAddr | Build | Quote
    | WaitShard(op: LedgerOp) | ReadLedger(op: LedgerOp) | WriteLedger(op: LedgerOp) | FreeShard(op: LedgerOp)
    | Send | Refresh | Resolve | Create
    | ViewWrite | CollectDelete
    | FreeAddr | FreeMutex | Done

  datatype Ledger = Ledger(spent: nat, day: nat)

  /** Locals of a request: the row it works on, its mutex generation, its reservation, its nonce
      and the ledger row it last read. */
  datatype Thread = Thread(
    req: Request, pc: Pc,
    id: nat, gen: nat, config: bool, wallet: Wallet, amount: nat,
    reserved: nat, resDay: nat, deducted: bool, nonce: nat,
    seen: Ledger, today: nat, succeeded: bool)

  datatype Lock = ApprovalLock(id: nat, gen: nat) | AddrLock(addr: nat) | ShardLock(shard: nat)

  /** What a request does on behalf of an approval row: a broadcast, and whether the node accepted it;
      a settings change; a rejection. */
  datatype Effect = Attempted(id: nat, accepted: bool) | Applied(id: nat) | Refused(id: nat)

  /** `mutexOf` is the map of live mutexes; `chain` the transactions nodes accepted, as address and
      nonce; `completed` and `added` total the finished and the recorded spends per wallet and day. */
  datatype Shared = Shared(
    rows: map<nat, Row>, used: set<nat>,
    mutexOf: map<nat, nat>, next: nat,
    ledger: map<Wallet, Ledger>, day: nat,
    chain: seq<(nat, nat)>,
    effects: seq<Effect>,
    completed: map<(Wallet, nat), nat>, added: map<(Wallet, nat), nat>)

  datatype State = State(mem: Shared, owner: map<Lock, nat>, threads: seq<Thread>)

  /** Answers from outside: whether a call succeeded, whether the clock is past the expiry, whether
      to retry (and with a fresh nonce), a row id to use, and which rows a sweep finds expired. */
  datatype Choice = Choice(ok: bool, late: bool, again: bool, refresh: bool, id: nat, lateIds: set<nat>)

  datatype LockOp = NoLock | Acquire(l: Lock) | Release(l: Lock)

  // ----- reading shared memory -----

  predicate IsPending(mem: Shared, id: nat) { id in mem.rows && mem.rows[id].status == Pending }

  function LedgerOf(mem: Shared, w: Wallet): Ledger { if w in mem.ledger then mem.ledger[w] else Ledger(0, 0) }

  function Total(m: map<(Wallet, nat), nat>, w: Wallet, day: nat): nat { if (w, day) in m then m[(w, day)] else 0 }

  function AddTo(m: map<(Wallet, nat), nat>, w: Wallet, day: nat, n: nat): map<(Wallet, nat), nat> {
    m[(w, day) := Total(m, w, day) + n]
  }

  /** eth_getTransactionCount("pending"): accepted transactions of an address. */
  function PendingCount(chain: seq<(nat, nat)>, a: nat): nat {
    if chain == [] then 0
    else PendingCount(chain[..|chain| - 1], a) + (if chain[|chain| - 1].0 == a then 1 else 0)
  }

  // ----- the daily ledger's arithmetic -----

  /** What is left of yesterday's counter today: nothing. */
  function Base(l: Ledger, today: nat): nat { if l.day < today then 0 else l.spent }

  function LedgerDay(l: Ledger, today: nat): nat { if l.day < today then today else l.day }

  function Debited(l: Ledger, today: nat, amount: nat): Ledger {
    Ledger(Base(l, today) + amount, LedgerDay(l, today))
  }

  /** A refund clamps at zero and keeps the day. */
  function Refunded(l: Ledger, amount: nat): Ledger {
    Ledger(if amount <= l.spent then l.spent - amount else 0, l.day)
  }

  // ----- thread classification -----

  predicate Approving(th: Thread) { th.req.Approve? || th.req.Reject? }

  predicate Spending(th: Thread) { th.req.Transfer? || th.req.Call? || (th.req.Approve? && !th.config) }

  predicate InLedger(pc: Pc) { pc.WaitShard? || pc.ReadLedger? || pc.WriteLedger? || pc.FreeShard? }

  /** Where a thread goes when it gives up or has finished its work. */
  function Leave(th: Thread): Pc { if Spending(th) then FreeAddr else if Approving(th) then FreeMutex else Done }

  // ----- local steps -----

  function Spawned(req: Request): Thread {
    Thread(req, Start, 0, 0, false, NOBODY, 0, 0, 0, false, 0, Ledger(0, 0), 0, false)
  }

  function Begin(mem: Shared, th: Thread, c: Choice): Thread {
    match th.req
    case Transfer(w, n, _, _) => th.(wallet := w, amount := n, pc := if w.evm then WaitAddr else Quote)
    case Call(w, n, _) => th.(wallet := w, amount := n, pc := if w.evm then WaitAddr else Quote)
    case Propose => th.(config := true, pc := Create)
    case Approve(id) =>
      if id in mem.rows
      then th.(id := id, config := mem.rows[id].config, wallet := mem.rows[id].wallet, amount := mem.rows[id].amount, pc := GetMutex)
      else th.(pc := Done)
    case Reject(id) => if id in mem.rows then th.(id := id, config := true, pc := GetMutex) else th.(pc := Done)
    case View(id) => if IsPending(mem, id) && c.late then th.(id := id, pc := ViewWrite) else th.(pc := Done)
    case Sweep => th.(pc := Done)
    case Collect(id) => if id in mem.mutexOf && !IsPending(mem, id) then th.(id := id, pc := CollectDelete) else th.(pc := Done)
  }

  /** The status check under the approval mutex. */
  function AfterCheck(mem: Shared, th: Thread, c: Choice): Pc {
    if !IsPending(mem, th.id) then FreeMutex
    else if th.req.Reject? then RejectWrite
    else if c.late then MarkExpired
    else Past
  }

  /** The gate: an unpriced token from an API key, and any amount above the threshold, need an
      approval; so does every contract call of an API key. */
  predicate Asks(req: Request)
    requires req.Transfer? || req.Call?
  {
    match req
    case Transfer(w, n, token, passkey) => w.policed && ((n == 0 && token && !passkey) || n > w.threshold)
    case Call(w, n, passkey) => !passkey || (w.policed && n > w.threshold)
  }

  predicate Reserves(w: Wallet, amount: nat) { w.policed && w.limited && amount > 0 }

  /** Built (and for approvals signed): reserve, ask for approval, or send; a failed preflight check
      or build gives up before the ledger. */
  function AfterQuote(th: Thread, c: Choice): Thread {
    var reserve := Reserves(th.wallet, th.amount);
    match th.req
    case Transfer(_, _, _, _) =>
      if !c.ok then th.(pc := Leave(th))
      else th.(pc := if reserve then WaitShard(Deduct) else if Asks(th.req) then Create else Send)
    case Call(_, _, _) =>
      if !c.ok then th.(pc := Leave(th))
      else th.(pc := if Asks(th.req) then Create else if reserve then WaitShard(Deduct) else Send)
    case _ =>
      if !c.ok then th.(succeeded := false, pc := Resolve)
      else th.(pc := if reserve && c.again then WaitShard(Deduct) else Send)
  }

  /** The ledger row as read under the shard lock decides what is written. */
  function AfterRead(mem: Shared, th: Thread, op: LedgerOp): Thread {
    var l, today := LedgerOf(mem, th.wallet), mem.day;
    var read := th.(seen := l, today := today);
    match op
    case Deduct =>
      if Base(l, today) + th.amount > th.wallet.limit then read.(pc := FreeShard(Deduct))
      else read.(pc := WriteLedger(Deduct))
    case Refund =>
      if l.day < today then read.(reserved := 0, pc := FreeShard(Refund)) else read.(pc := WriteLedger(Refund))
    case Record => read.(pc := WriteLedger(Record))
  }

  function AfterWrite(th: Thread, op: LedgerOp): Thread {
    match op
    case Deduct => th.(reserved := th.amount, deducted := true, resDay := LedgerDay(th.seen, th.today), pc := FreeShard(Deduct))
    case Refund => th.(reserved := 0, pc := FreeShard(Refund))
    case Record => th.(pc := FreeShard(Record))
  }

  function AfterFree(th: Thread, op: LedgerOp): Pc {
    match op
    case Deduct =>
      if th.reserved == 0 then Leave(th)
      else if th.req.Transfer? && Asks(th.req) then WaitShard(Refund)
      else Send
    case Refund => if th.req.Transfer? && Asks(th.req) then Create else if th.req.Approve? then Resolve else Leave(th)
    case Record => Leave(th)
  }

  /** A broadcast that failed for good: roll the reservation back, except for contract calls. */
  function GiveUp(th: Thread): Thread {
    if th.reserved > 0 && !th.req.Call? then th.(succeeded := false, pc := WaitShard(Refund))
    else if th.req.Approve? then th.(succeeded := false, pc := Resolve)
    else th.(succeeded := false, pc := Leave(th))
  }

  function AfterSend(th: Thread, c: Choice): Thread {
    if c.ok then th.(succeeded := true, reserved := 0, pc := if th.req.Approve? then Resolve else Leave(th))
    else if th.req.Transfer? && c.again && th.wallet.evm then th.(pc := if c.refresh then Refresh else Send)
    else GiveUp(th)
  }

  /** After the status write, a spend that was not reserved beforehand may be recorded. */
  function AfterResolve(th: Thread, c: Choice): Pc {
    if !th.config && th.succeeded && !th.deducted && c.again then WaitShard(Record) else Leave(th)
  }

  predicate AtMutex(pc: Pc) {
    pc.GetMutex? || pc.WaitMutex? || pc.Check? || pc.MarkExpired? || pc.RejectWrite? || pc.Past?
  }

  /** Up to and including the decision taken under the approval mutex. */
  function MoveMutex(mem: Shared, th: Thread, c: Choice): Thread {
    match th.pc
    case GetMutex => th.(gen := if th.id in mem.mutexOf then mem.mutexOf[th.id] else mem.next, pc := WaitMutex)
    case WaitMutex => th.(pc := Check)
    case Check => th.(pc := AfterCheck(mem, th, c))
    case Past =>
      if !c.ok then th.(pc := FreeMutex)
      else if th.config then th.(succeeded := true, pc := Resolve)
      else th.(pc := if th.wallet.evm then WaitAddr else Quote)
    case _ => th.(pc := FreeMutex)
  }

  predicate AtEnd(pc: Pc) {
    pc.Resolve? || pc.Create? || pc.ViewWrite? || pc.CollectDelete? || pc.FreeAddr? || pc.FreeMutex?
  }

  /** Final writes and unlocking. */
  function MoveEnd(th: Thread, c: Choice): Thread {
    match th.pc
    case Resolve => th.(pc := AfterResolve(th, c))
    case Create => th.(pc := Leave(th))
    case FreeAddr => th.(pc := if Approving(th) then FreeMutex else Done)
    case _ => th.(pc := Done)
  }

  function AfterBuild(mem: Shared, th: Thread, c: Choice): Thread {
    if c.ok then th.(nonce := PendingCount(mem.chain, th.wallet.addr), pc := Quote) else th.(pc := FreeAddr)
  }

  function AfterRefresh(mem: Shared, th: Thread, c: Choice): Thread {
    if c.ok then th.(nonce := PendingCount(mem.chain, th.wallet.addr), pc := Send) else GiveUp(th)
  }

  function Move(mem: Shared, th: Thread, c: Choice): (th': Thread) {
    if AtMutex(th.pc) then MoveMutex(mem, th, c)
    else if AtEnd(th.pc) then MoveEnd(th, c)
    else
      match th.pc
      case Start => Begin(mem, th, c)
      case WaitAddr => th.(pc := Build)
      case Build => AfterBuild(mem, th, c)
      case Quote => AfterQuote(th, c)
      case WaitShard(op) => th.(pc := ReadLedger(op))
      case ReadLedger(op) => AfterRead(mem, th, op)
      case WriteLedger(op) => AfterWrite(th, op)
      case FreeShard(op) => th.(pc := AfterFree(th, op))
      case Send => AfterSend(th, c)
      case Refresh => AfterRefresh(mem, th, c)
      case _ => th
  }

  // ----- what a step does to shared memory -----

  /** An SQL update of one row's status; a row deleted meanwhile is not recreated. */
  function SetStatus(mem: Shared, id: nat, st: Status): Shared {
    if id in mem.rows then mem.(rows := mem.rows[id := mem.rows[id].(status := st)]) else mem
  }

  function ExpireRows(rows: map<nat, Row>, late: set<nat>): map<nat, Row> {
    map id | id in rows :: if rows[id].status == Pending && id in late then rows[id].(status := Expired) else rows[id]
  }

  function Emit(mem: Shared, e: Effect): Shared { mem.(effects := mem.effects + [e]) }

  function WriteRow(mem: Shared, th: Thread, op: LedgerOp): Shared {
    match op
    case Deduct => mem.(ledger := mem.ledger[th.wallet := Debited(th.seen, th.today, th.amount)])
    case Refund => mem.(ledger := mem.ledger[th.wallet := Refunded(th.seen, th.reserved)])
    case Record =>
      mem.(ledger := mem.ledger[th.wallet := Debited(th.seen, th.today, th.amount)],
           added := AddTo(mem.added, th.wallet, LedgerDay(th.seen, th.today), th.amount))
  }

  /** The broadcast: an approval logs its attempt; an accepted transaction reaches the chain and
      turns the reservation into a completed spend. */
  function Broadcast(mem: Shared, th: Thread, c: Choice): Shared {
    var logged := if th.req.Approve? then Emit(mem, Attempted(th.id, c.ok)) else mem;
    if !c.ok then logged
    else
      var sent := if th.wallet.evm then logged.(chain := logged.chain + [(th.wallet.addr, th.nonce)]) else logged;
      sent.(completed := AddTo(sent.completed, th.wallet, th.resDay, th.reserved))
  }

  function ChangeMutex(mem: Shared, th: Thread, c: Choice): Shared {
    match th.pc
    case GetMutex =>
      if th.id in mem.mutexOf then mem
      else mem.(mutexOf := mem.mutexOf[th.id := mem.next], next := mem.next + 1)
    case MarkExpired => SetStatus(mem, th.id, Expired)
    case RejectWrite => Emit(SetStatus(mem, th.id, Rejected), Refused(th.id))
    case Past => if c.ok && th.config then Emit(mem, Applied(th.id)) else mem
    case _ => mem
  }

  function NewRow(mem: Shared, th: Thread, c: Choice): Shared {
    if c.ok && c.id !in mem.used
    then mem.(rows := mem.rows[c.id := Row(Pending, th.config, th.wallet, th.amount)], used := mem.used + {c.id})
    else mem
  }

  function ChangeEnd(mem: Shared, th: Thread, c: Choice): Shared {
    match th.pc
    case Resolve => SetStatus(mem, th.id, if th.succeeded then Approved else Failed)
    case Create => NewRow(mem, th, c)
    case ViewWrite => SetStatus(mem, th.id, Expired)
    case CollectDelete => mem.(mutexOf := mem.mutexOf - {th.id})
    case _ => mem
  }

  function Change(mem: Shared, th: Thread, c: Choice): (mem': Shared) {
    if AtMutex(th.pc) then ChangeMutex(mem, th, c)
    else if AtEnd(th.pc) then ChangeEnd(mem, th, c)
    else
      match th.pc
      case Start => if th.req.Sweep? then mem.(rows := ExpireRows(mem.rows, c.lateIds)) else mem
      case WriteLedger(op) => WriteRow(mem, th, op)
      case Send => Broadcast(mem, th, c)
      case _ => mem
  }

  // ----- locks -----

  function Op(th: Thread): LockOp {
    match th.pc
    case WaitMutex => Acquire(ApprovalLock(th.id, th.gen))
    case WaitAddr => Acquire(AddrLock(th.wallet.addr))
    case WaitShard(_) => Acquire(ShardLock(th.wallet.shard))
    case FreeShard(_) => Release(ShardLock(th.wallet.shard))
    case FreeAddr => if th.wallet.evm then Release(AddrLock(th.wallet.addr)) else NoLock
    case FreeMutex => Release(ApprovalLock(th.id, th.gen))
    case _ => NoLock
  }

  function ApplyOp(owner: map<Lock, nat>, op: LockOp, t: nat): map<Lock, nat> {
    match op
    case NoLock => owner
    case Acquire(l) => owner[l := t]
    case Release(l) => owner - {l}
  }

  /** A thread can step unless it is finished or waits for a lock somebody holds. */
  predicate Enabled(s: State, t: nat) {
    t < |s.threads| && s.threads[t].pc != Done
    && (Op(s.threads[t]).Acquire? ==> Op(s.threads[t]).l !in s.owner)
  }

  // ----- runs -----

  datatype Action =
    | Step(t: nat, c: Choice)
    | Arrive(req: Request)
    | NextDay
    | DeleteRow(id: nat)      // deleting a wallet deletes its approval rows

  function Exec(s: State, a: Action): State {
    match a
    case Step(t, c) =>
      if Enabled(s, t) then
        var th := s.threads[t];
        State(Change(s.mem, th, c), ApplyOp(s.owner, Op(th), t), s.threads[t := Move(s.mem, th, c)])
      else s
    case Arrive(req) => s.(threads := s.threads + [Spawned(req)])
    case NextDay => s.(mem := s.mem.(day := s.mem.day + 1))
    case DeleteRow(id) => s.(mem := s.mem.(rows := s.mem.rows - {id}))
  }

  const EMPTY := State(Shared(map[], {}, map[], 0, map[], 0, [], [], map[], map[]), map[], [])

  function Run(actions: seq<Action>): State {
    if actions == [] then EMPTY else Exec(Run(actions[..|actions| - 1]), actions[|actions| - 1])
  }
}
