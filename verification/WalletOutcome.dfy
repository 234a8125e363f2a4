/** What "failed" and "expired" mean on an approval row (handler/approval.go).

    A row is labelled "failed" only when nothing happened on its behalf.  A row on whose behalf
    something happened ends up "approved" or "expired": the second because a request that only looks
    at the row writes "expired" without the row's mutex. */
module WalletOutcome {
  import opened WalletModel
  import opened WalletLocks
  import opened WalletApproval
  import opened WalletRows

  predicate FailedRow(mem: Shared, id: nat) { id in mem.rows && mem.rows[id].status == Failed }

  /** A resolving thread remembers a success. */
  ghost predicate Remembers(mem: Shared, th: Thread) {
    Resolving(th) && Happened(mem, th.id) ==> th.succeeded
  }

  ghost predicate NobodyPast(s: State, id: nat) {
    forall t :: 0 <= t < |s.threads| && PastCheck(s.threads[t]) ==> s.threads[t].id != id
  }

  ghost predicate OutcomeInv(s: State) {
    && ApprovalInv(s)
    && (forall t :: 0 <= t < |s.threads| ==> Remembers(s.mem, s.threads[t]))
    && (forall id :: FailedRow(s.mem, id) ==> !Happened(s.mem, id) && NobodyPast(s, id))
  }

  // ----- one step -----

  /** How a row becomes "failed", and what a resolving thread remembers. */
  ghost predicate OutcomeStep(mem: Shared, mem': Shared, th: Thread, th': Thread) {
    && (forall id :: FailedRow(mem', id) && !FailedRow(mem, id) ==>
      id == th.id && Resolving(th) && !th.succeeded && !PastCheck(th'))
    && (Resolving(th) && Resolving(th') ==> th'.succeeded == th.succeeded)
    && (Committed(th) && Resolving(th') && Happened(mem', th.id) && !Happened(mem, th.id) ==> th'.succeeded)
  }

  lemma {:induction false} StatusOutcome(mem: Shared, id: nat, st: Status)
    ensures forall i :: FailedRow(SetStatus(mem, id, st), i) && !FailedRow(mem, i) ==> i == id && st == Failed
  {
  }

  lemma {:induction false} MutexOutcome(mem: Shared, th: Thread, c: Choice)
    requires AtMutex(th.pc)
    ensures OutcomeStep(mem, ChangeMutex(mem, th, c), th, MoveMutex(mem, th, c))
  {
    StatusOutcome(mem, th.id, Expired);
    StatusOutcome(mem, th.id, Rejected);
  }

  lemma {:induction false} EndOutcome(mem: Shared, th: Thread, c: Choice)
    requires AtEnd(th.pc) && Shaped(th)
    ensures OutcomeStep(mem, ChangeEnd(mem, th, c), th, MoveEnd(th, c))
  {
    StatusOutcome(mem, th.id, Expired);
    StatusOutcome(mem, th.id, if th.succeeded then Approved else Failed);
  }

  /** Steps between the two: the rows stay, and only a broadcast is an effect. */
  lemma {:induction false} QuietOutcome(mem: Shared, mem': Shared, th: Thread, th': Thread)
    requires mem'.rows == mem.rows && mem'.effects == mem.effects
    requires Resolving(th) && Resolving(th') ==> th'.succeeded == th.succeeded
    ensures OutcomeStep(mem, mem', th, th')
  {
  }

  lemma {:induction false} SendOutcome(mem: Shared, th: Thread, c: Choice)
    requires th.pc.Send?
    ensures OutcomeStep(mem, Broadcast(mem, th, c), th, AfterSend(th, c))
  {
    var mem' := Broadcast(mem, th, c);
    assert mem'.rows == mem.rows;
    if !c.ok && th.req.Approve? {
      assert mem'.effects == mem.effects + [Attempted(th.id, false)];
    }
  }

  lemma {:induction false} WriteOutcome(mem: Shared, th: Thread, op: LedgerOp)
    ensures var mem' := WriteRow(mem, th, op);
      mem'.rows == mem.rows && mem'.effects == mem.effects && AfterWrite(th, op).succeeded == th.succeeded
  {
  }

  lemma {:induction false} StartOutcome(mem: Shared, th: Thread, c: Choice)
    requires th.pc.Start?
    ensures OutcomeStep(mem, mem, th, Begin(mem, th, c))
    ensures OutcomeStep(mem, mem.(rows := ExpireRows(mem.rows, c.lateIds)), th, Begin(mem, th, c))
  {
  }

  lemma {:induction false} AnyOutcome(mem: Shared, th: Thread, c: Choice)
    requires Shaped(th) && th.pc != Done
    ensures OutcomeStep(mem, Change(mem, th, c), th, Move(mem, th, c))
  {
    if AtMutex(th.pc) {
      MutexOutcome(mem, th, c);
    } else if AtEnd(th.pc) {
      EndOutcome(mem, th, c);
    } else if th.pc.Start? {
      StartOutcome(mem, th, c);
    } else if th.pc.Send? {
      SendOutcome(mem, th, c);
    } else {
      if th.pc.WriteLedger? {
        WriteOutcome(mem, th, th.pc.op);
      }
      QuietOutcome(mem, Change(mem, th, c), th, Move(mem, th, c));
    }
  }

  // ----- every action, every run -----

  /** What happens anew happens on behalf of the committed thread that moved. */
  lemma {:induction false} NewHappening(mem: Shared, mem': Shared, th: Thread, th': Thread, id: nat)
    requires EffectStep(mem, mem', th, th') && Happened(mem', id) && !Happened(mem, id)
    ensures Committed(th) && th.id == id
  {
    if mem'.effects != mem.effects {
      assert mem'.effects == mem.effects + [mem'.effects[|mem.effects|]];
    }
  }

  lemma {:induction false} RemembersStep(s: State, s': State, t: nat, u: nat)
    requires OutcomeInv(s) && Moved(s, s', t) && u < |s.threads|
    requires OutcomeStep(s.mem, s'.mem, s.threads[t], s'.threads[t])
    ensures Remembers(s'.mem, s'.threads[u])
  {
    var th, thu, id := s.threads[t], s'.threads[u], s'.threads[u].id;
    if Resolving(thu) && Happened(s'.mem, id) {
      assert Remembers(s.mem, s.threads[u]);
      if !Happened(s.mem, id) {
        NewHappening(s.mem, s'.mem, th, s'.threads[t], id);
      } else if u == t && Committed(th) {
        assert Mentioned(s.mem, id);
      }
    }
  }

  lemma {:induction false} FailedStep(s: State, s': State, t: nat, id: nat)
    requires OutcomeInv(s) && SoleInv(s') && Moved(s, s', t) && FailedRow(s'.mem, id)
    requires OutcomeStep(s.mem, s'.mem, s.threads[t], s'.threads[t])
    ensures !Happened(s'.mem, id) && NobodyPast(s', id)
  {
    var th, th' := s.threads[t], s'.threads[t];
    assert Remembers(s.mem, th);
    if Happened(s'.mem, id) && !Happened(s.mem, id) {
      NewHappening(s.mem, s'.mem, th, th', id);
    }
    forall u | 0 <= u < |s'.threads| && PastCheck(s'.threads[u]) ensures s'.threads[u].id != id {
      if u == t {
        assert PastCheck(th) ==> th.id == th'.id;
      } else {
        assert PastCheck(s.threads[u]);
      }
    }
  }

  lemma {:induction false} OutcomeInvStep(s: State, t: nat, c: Choice)
    requires OutcomeInv(s) && Enabled(s, t)
    ensures OutcomeInv(Exec(s, Step(t, c)))
  {
    var s' := Exec(s, Step(t, c));
    StepKeeps(s, t, c);
    StepAny(s.mem, s.threads[t], c);
    MemChange(s.mem, s.threads[t], c);
    AnyOutcome(s.mem, s.threads[t], c);
    assert Moved(s, s', t);
    forall u | 0 <= u < |s'.threads| ensures Remembers(s'.mem, s'.threads[u]) {
      RemembersStep(s, s', t, u);
    }
    forall id | FailedRow(s'.mem, id) ensures !Happened(s'.mem, id) && NobodyPast(s', id) {
      FailedStep(s, s', t, id);
    }
  }

  lemma {:induction false} OutcomeInvOther(s: State, a: Action)
    requires OutcomeInv(s) && !a.Step? && ApprovalInv(Exec(s, a))
    ensures OutcomeInv(Exec(s, a))
  {
    var s' := Exec(s, a);
    forall u | 0 <= u < |s'.threads| ensures Remembers(s'.mem, s'.threads[u]) {
      if u < |s.threads| {
        assert Remembers(s.mem, s.threads[u]);
      }
    }
    forall id | FailedRow(s'.mem, id) ensures !Happened(s'.mem, id) && NobodyPast(s', id) {
      assert FailedRow(s.mem, id);
    }
  }

  lemma {:induction false} OutcomeInvRun(actions: seq<Action>)
    ensures OutcomeInv(Run(actions))
  {
    ApprovalInvRun(actions);
    if actions != [] {
      var s, a := Run(actions[..|actions| - 1]), actions[|actions| - 1];
      OutcomeInvRun(actions[..|actions| - 1]);
      if a.Step? {
        if Enabled(s, a.t) {
          OutcomeInvStep(s, a.t, a.c);
        }
      } else {
        OutcomeInvOther(s, a);
      }
    }
  }

  // ----- what the labels mean -----

  /** After every run, "failed" means that no node accepted the row's transaction and that no settings
      were applied for it. */
  lemma {:induction false} FailedMeansNothing(actions: seq<Action>, id: nat)
    requires id in Run(actions).mem.rows && Run(actions).mem.rows[id].status == Failed
    ensures Applied(id) !in Run(actions).mem.effects && Attempted(id, true) !in Run(actions).mem.effects
  {
    OutcomeInvRun(actions);
    assert FailedRow(Run(actions).mem, id);
  }

  /** After every run, once nobody is resolving the row any more, a row whose transaction was accepted
      or whose settings were applied says "approved" or "expired". */
  lemma {:induction false} HappenedIsLabelled(actions: seq<Action>, id: nat)
    requires id in Run(actions).mem.rows && !BeingResolved(Run(actions), id)
    requires Applied(id) in Run(actions).mem.effects || Attempted(id, true) in Run(actions).mem.effects
    ensures Run(actions).mem.rows[id].status in {Approved, Expired}
  {
    OutcomeInvRun(actions);
    LabelsTellTheTruth(actions, id);
    var mem := Run(actions).mem;
    var e := if Applied(id) in mem.effects then Applied(id) else Attempted(id, true);
    var i :| 0 <= i < |mem.effects| && mem.effects[i] == e;
    assert IdOf(mem.effects[i]) == id && Mentioned(mem, id);
    assert !FailedRow(mem, id);
  }

  // ----- "expired" says less -----

  const YES := Choice(true, false, false, false, 0, {})
  const NO := Choice(false, false, false, false, 0, {})
  const LATE := Choice(true, true, false, false, 0, {})

  /** Thread 0 proposes row 0. */
  function Proposer(pc: Pc): Thread { Spawned(Propose).(config := true, pc := pc) }

  /** Thread 1 approves it. */
  function Approver(pc: Pc, succeeded: bool): Thread {
    Spawned(Approve(0)).(config := true, pc := pc, succeeded := succeeded)
  }

  /** Thread 2 looks at it. */
  function Viewer(pc: Pc): Thread { Spawned(View(0)).(pc := pc) }

  /** Memory once the row has its label and, perhaps, its mutex and its effect. */
  function Labelled(st: Status, mutex: bool, effects: seq<Effect>): Shared {
    EMPTY.mem.(rows := map[0 := Row(st, true, NOBODY, 0)], used := {0}, effects := effects,
               mutexOf := if mutex then map[0 := 0] else map[], next := if mutex then 1 else 0)
  }

  function Scene(mem: Shared, locked: bool, approver: Thread, viewer: Thread): State {
    State(mem, if locked then map[ApprovalLock(0, 0) := 1] else map[], [Proposer(Done), approver, viewer])
  }

  lemma {:induction false} RowProposed()
    ensures Exec(State(EMPTY.mem, map[], [Spawned(Propose)]), Step(0, YES)) == State(EMPTY.mem, map[], [Proposer(Create)])
    ensures Exec(State(EMPTY.mem, map[], [Proposer(Create)]), Step(0, YES))
      == State(Labelled(Pending, false, []), map[], [Proposer(Done)])
  {
  }

  lemma {:induction false} ApprovalBegun()
    ensures Exec(Scene(Labelled(Pending, false, []), false, Spawned(Approve(0)), Viewer(Start)), Step(1, YES))
      == Scene(Labelled(Pending, false, []), false, Approver(GetMutex, false), Viewer(Start))
  {
  }

  lemma {:induction false} MutexTaken()
    ensures Exec(Scene(Labelled(Pending, false, []), false, Approver(GetMutex, false), Viewer(Start)), Step(1, YES))
      == Scene(Labelled(Pending, true, []), false, Approver(WaitMutex, false), Viewer(Start))
    ensures Exec(Scene(Labelled(Pending, true, []), false, Approver(WaitMutex, false), Viewer(Start)), Step(1, YES))
      == Scene(Labelled(Pending, true, []), true, Approver(Check, false), Viewer(Start))
  {
  }

  lemma {:induction false} BothLook()
    ensures Exec(Scene(Labelled(Pending, true, []), true, Approver(Check, false), Viewer(Start)), Step(1, YES))
      == Scene(Labelled(Pending, true, []), true, Approver(Past, false), Viewer(Start))
    ensures Exec(Scene(Labelled(Pending, true, []), true, Approver(Past, false), Viewer(Start)), Step(2, LATE))
      == Scene(Labelled(Pending, true, []), true, Approver(Past, false), Viewer(ViewWrite))
  {
  }

  lemma {:induction false} SettingsApplied()
    ensures Exec(Scene(Labelled(Pending, true, []), true, Approver(Past, false), Viewer(ViewWrite)), Step(1, YES))
      == Scene(Labelled(Pending, true, [Applied(0)]), true, Approver(Resolve, true), Viewer(ViewWrite))
  {
  }

  lemma {:induction false} ApprovedWritten()
    ensures Exec(Scene(Labelled(Pending, true, [Applied(0)]), true, Approver(Resolve, true), Viewer(ViewWrite)), Step(1, NO))
      == Scene(Labelled(Approved, true, [Applied(0)]), true, Approver(FreeMutex, true), Viewer(ViewWrite))
  {
  }

  lemma {:induction false} MutexFreed()
    ensures Exec(Scene(Labelled(Approved, true, [Applied(0)]), true, Approver(FreeMutex, true), Viewer(ViewWrite)), Step(1, YES))
      == Scene(Labelled(Approved, true, [Applied(0)]), false, Approver(Done, true), Viewer(ViewWrite))
  {
  }

  lemma {:induction false} ExpiredWritten()
    ensures Exec(Scene(Labelled(Approved, true, [Applied(0)]), false, Approver(Done, true), Viewer(ViewWrite)), Step(2, YES))
      == Scene(Labelled(Expired, true, [Applied(0)]), false, Approver(Done, true), Viewer(Done))
  {
  }

  lemma {:induction false} Then(acts: seq<Action>, a: Action)
    ensures Run(acts + [a]) == Exec(Run(acts), a)
  {
    assert (acts + [a])[..|acts|] == acts;
  }

  lemma {:induction false} Arrived() returns (acts: seq<Action>)
    ensures Run(acts) == Scene(Labelled(Pending, false, []), false, Spawned(Approve(0)), Viewer(Start))
  {
    RowProposed();
    Then([], Arrive(Propose));
    acts := [] + [Arrive(Propose)];
    Then(acts, Step(0, YES));
    acts := acts + [Step(0, YES)];
    Then(acts, Step(0, YES));
    acts := acts + [Step(0, YES)];
    Then(acts, Arrive(Approve(0)));
    acts := acts + [Arrive(Approve(0))];
    Then(acts, Arrive(View(0)));
    acts := acts + [Arrive(View(0))];
  }

  lemma {:induction false} Checking() returns (acts: seq<Action>)
    ensures Run(acts) == Scene(Labelled(Pending, true, []), true, Approver(Check, false), Viewer(Start))
  {
    acts := Arrived();
    ApprovalBegun();
    Then(acts, Step(1, YES));
    acts := acts + [Step(1, YES)];
    MutexTaken();
    Then(acts, Step(1, YES));
    acts := acts + [Step(1, YES)];
    Then(acts, Step(1, YES));
    acts := acts + [Step(1, YES)];
  }

  lemma {:induction false} Looking() returns (acts: seq<Action>)
    ensures Run(acts) == Scene(Labelled(Pending, true, []), true, Approver(Past, false), Viewer(ViewWrite))
  {
    acts := Checking();
    BothLook();
    Then(acts, Step(1, YES));
    acts := acts + [Step(1, YES)];
    Then(acts, Step(2, LATE));
    acts := acts + [Step(2, LATE)];
  }

  lemma {:induction false} Writing() returns (acts: seq<Action>)
    ensures Run(acts) == Scene(Labelled(Approved, true, [Applied(0)]), true, Approver(FreeMutex, true), Viewer(ViewWrite))
  {
    acts := Looking();
    SettingsApplied();
    Then(acts, Step(1, YES));
    acts := acts + [Step(1, YES)];
    ApprovedWritten();
    Then(acts, Step(1, NO));
    acts := acts + [Step(1, NO)];
  }

  /** A run after which the settings of a row were applied, nobody works on it any more, and it says
      "expired": a look at the row began before the approval was written and wrote after it. */
  lemma {:induction false} ExpiredThoughApplied() returns (acts: seq<Action>)
    ensures var s := Run(acts);
      && 0 in s.mem.rows && s.mem.rows[0].status == Expired && Applied(0) in s.mem.effects
      && forall t :: 0 <= t < |s.threads| ==> s.threads[t].pc == Done
  {
    acts := Writing();
    MutexFreed();
    Then(acts, Step(1, YES));
    acts := acts + [Step(1, YES)];
    ExpiredWritten();
    Then(acts, Step(2, YES));
    acts := acts + [Step(2, YES)];
  }
}
