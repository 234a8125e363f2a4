/** A run in which a refund crosses midnight (handler/wallet.go).

    The books of WalletLedger balance when every refund happens on the day of its reservation.
    This run shows that the condition cannot be dropped: a transfer reserves before midnight and
    fails after it, and its refund eats a spend completed on the new day. */
module WalletMidnight {
  import opened WalletModel

  const ACCOUNT := Wallet(0, false, 0, 0, true, 10, true, 10)

  const YES := Choice(true, false, false, false, 0, {})
  const NO := Choice(false, false, false, false, 0, {})

  lemma {:induction false} Advance(acts: seq<Action>, t: nat, c: Choice) returns (acts': seq<Action>)
    requires Enabled(Run(acts), t)
    ensures var s := Run(acts);
      var th := s.threads[t];
      Run(acts') == State(Change(s.mem, th, c), ApplyOp(s.owner, Op(th), t), s.threads[t := Move(s.mem, th, c)])
  {
    acts' := acts + [Step(t, c)];
  }

  /** A new transfer of `n` waits at its first step. */
  ghost predicate Waiting(s: State, t: nat, n: nat) {
    t < |s.threads| && s.threads[t] == Spawned(Transfer(ACCOUNT, n, false, true)) && s.owner == map[] && n > 0
  }

  ghost predicate Sending(s: State, t: nat, n: nat, day: nat) {
    && t < |s.threads| && s.owner == map[]
    && s.threads[t].req == Transfer(ACCOUNT, n, false, true) && s.threads[t].wallet == ACCOUNT
    && s.threads[t].pc == Send && s.threads[t].reserved == n && s.threads[t].resDay == day
  }

  ghost predicate SameOthers(s: State, s': State, t: nat) {
    |s'.threads| == |s.threads| && forall i :: 0 <= i < |s.threads| && i != t ==> s'.threads[i] == s.threads[i]
  }

  ghost predicate At(s: State, t: nat, n: nat, pc: Pc) {
    t < |s.threads| && s.threads[t] == Spawned(Transfer(ACCOUNT, n, false, true)).(wallet := ACCOUNT, amount := n, pc := pc)
  }

  lemma {:induction false} ToShard(acts: seq<Action>, t: nat, n: nat) returns (acts': seq<Action>)
    requires Waiting(Run(acts), t, n)
    ensures var s, s' := Run(acts), Run(acts');
      s'.mem == s.mem && SameOthers(s, s', t) && s'.owner == map[] && At(s', t, n, WaitShard(Deduct))
  {
    var a := Advance(acts, t, YES);
    assert At(Run(a), t, n, Quote);
    acts' := Advance(a, t, YES);
  }

  /** From arrival to the ledger row as read under the shard lock. */
  lemma {:induction false} ToLedger(acts: seq<Action>, t: nat, n: nat) returns (acts': seq<Action>)
    requires Waiting(Run(acts), t, n)
    requires Base(LedgerOf(Run(acts).mem, ACCOUNT), Run(acts).mem.day) + n <= 10
    ensures var s, s' := Run(acts), Run(acts');
      && s'.mem == s.mem && SameOthers(s, s', t) && s'.owner == map[ShardLock(0) := t]
      && s'.threads[t] == Spawned(Transfer(ACCOUNT, n, false, true)).(wallet := ACCOUNT, amount := n, pc := WriteLedger(Deduct),
                                  seen := LedgerOf(s.mem, ACCOUNT), today := s.mem.day)
  {
    var a := ToShard(acts, t, n);
    a := Advance(a, t, YES);
    assert At(Run(a), t, n, ReadLedger(Deduct)) && Run(a).owner == map[ShardLock(0) := t];
    acts' := Advance(a, t, YES);
  }

  lemma {:induction false} Reserve(acts: seq<Action>, t: nat, n: nat) returns (acts': seq<Action>)
    requires Waiting(Run(acts), t, n)
    requires Base(LedgerOf(Run(acts).mem, ACCOUNT), Run(acts).mem.day) + n <= 10
    ensures var s, s' := Run(acts), Run(acts');
      var l := LedgerOf(s.mem, ACCOUNT);
      && SameOthers(s, s', t) && Sending(s', t, n, LedgerDay(l, s.mem.day))
      && s'.mem == s.mem.(ledger := s.mem.ledger[ACCOUNT := Debited(l, s.mem.day, n)])
  {
    var a := ToLedger(acts, t, n);
    a := Advance(a, t, YES);
    assert Run(a).threads[t].pc == FreeShard(Deduct);
    acts' := Advance(a, t, YES);
    assert map[ShardLock(0) := t] - {ShardLock(0)} == map[];
  }

  lemma {:induction false} Complete(acts: seq<Action>, t: nat, n: nat, day: nat) returns (acts': seq<Action>)
    requires Sending(Run(acts), t, n, day)
    ensures var s, s' := Run(acts), Run(acts');
      && SameOthers(s, s', t) && s'.owner == map[]
      && s'.mem == s.mem.(completed := AddTo(s.mem.completed, ACCOUNT, day, n))
  {
    acts' := Advance(acts, t, YES);
  }

  lemma {:induction false} ToRefund(acts: seq<Action>, t: nat, n: nat, day: nat) returns (acts': seq<Action>)
    requires Sending(Run(acts), t, n, day) && n > 0
    ensures var s, s' := Run(acts), Run(acts');
      && s'.mem == s.mem && s'.owner == map[] && t < |s'.threads|
      && s'.threads[t] == s.threads[t].(succeeded := false, pc := WaitShard(Refund))
  {
    acts' := Advance(acts, t, NO);
  }

  lemma {:induction false} ReadForRefund(acts: seq<Action>, t: nat, n: nat, day: nat) returns (acts': seq<Action>)
    requires Sending(Run(acts), t, n, day) && n > 0
    requires LedgerOf(Run(acts).mem, ACCOUNT).day >= Run(acts).mem.day
    ensures var s, s' := Run(acts), Run(acts');
      && s'.mem == s.mem && t < |s'.threads| && s'.threads[t].pc == WriteLedger(Refund)
      && s'.threads[t].wallet == ACCOUNT && s'.threads[t].reserved == n
      && s'.threads[t].seen == LedgerOf(s.mem, ACCOUNT)
  {
    var a := ToRefund(acts, t, n, day);
    a := Advance(a, t, YES);
    assert Run(a).mem == Run(acts).mem && Run(a).threads[t].pc == ReadLedger(Refund);
    acts' := Advance(a, t, YES);
  }

  lemma {:induction false} Fail(acts: seq<Action>, t: nat, n: nat, day: nat) returns (acts': seq<Action>)
    requires Sending(Run(acts), t, n, day) && n > 0
    requires LedgerOf(Run(acts).mem, ACCOUNT).day >= Run(acts).mem.day
    ensures var s, s' := Run(acts), Run(acts');
      s'.mem == s.mem.(ledger := s.mem.ledger[ACCOUNT := Refunded(LedgerOf(s.mem, ACCOUNT), n)])
  {
    var a := ReadForRefund(acts, t, n, day);
    acts' := Advance(a, t, YES);
  }

  lemma {:induction false} Arrived(acts: seq<Action>, n: nat) returns (acts': seq<Action>)
    requires Run(acts).owner == map[] && n > 0
    ensures var s, s' := Run(acts), Run(acts');
      && Waiting(s', |s.threads|, n) && |s'.threads| == |s.threads| + 1
      && s'.mem == s.mem && forall i :: 0 <= i < |s.threads| ==> s'.threads[i] == s.threads[i]
  {
    var a := Arrive(Transfer(ACCOUNT, n, false, true));
    acts' := acts + [a];
  }

  /** After this run the counter of the day is below what was completed on that day. */
  lemma {:induction false} RefundAfterMidnight() returns (acts: seq<Action>)
    ensures var mem := Run(acts).mem;
      var l := LedgerOf(mem, ACCOUNT);
      l.day == mem.day && l.spent < Total(mem.completed, ACCOUNT, l.day)
  {
    acts := Arrived([], 5);
    acts := Reserve(acts, 0, 5);
    assert Sending(Run(acts), 0, 5, 0);
    acts := acts + [NextDay];
    assert Sending(Run(acts), 0, 5, 0) && Run(acts).mem.day == 1;
    acts := Arrived(acts, 3);
    acts := Reserve(acts, 1, 3);
    assert LedgerOf(Run(acts).mem, ACCOUNT) == Ledger(3, 1);
    acts := Complete(acts, 1, 3, 1);
    assert Total(Run(acts).mem.completed, ACCOUNT, 1) == 3;
    assert Sending(Run(acts), 0, 5, 0);
    acts := Fail(acts, 0, 5, 0);
    assert LedgerOf(Run(acts).mem, ACCOUNT) == Ledger(0, 1);
  }
}
