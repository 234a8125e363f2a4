/** Signing and broadcasting with replace-by-fee (handler/wallet.go, chain/tx_eth.go).

    `SignAndBroadcast` is the retry loop, run against an arbitrary sequence of answers from the
    signer and the node.  `SendOrder` and `SendApproved` are the two ways to a broadcast, from the
    request to the last round: how often something is signed, what never changes, how far fees can
    rise, and that the node is sent exactly what was signed. */
module FeeBump {
  import opened Options
  import opened Numerals
  import opened IntText
  import opened EthTx

  // ----- fees -----

  const BUMP_NUMERATOR := 125
  const BUMP_DENOMINATOR := 100
  const TIP_CAP := 10_000_000_000
  const MAX_ATTEMPTS := 4

  function Bump(v: int): int { v * BUMP_NUMERATOR / BUMP_DENOMINATOR + 1 }

  /** A bump is more than the 12.5% a node asks for, and monotone. */
  lemma {:induction false} BumpRaises(v: int, w: int)
    requires 0 <= v <= w
    ensures 8 * Bump(v) > 9 * v
    ensures 4 * Bump(v) <= 5 * v + 4
    ensures Bump(v) <= Bump(w)
  {
  }

  function BumpTimes(v: int, k: nat): int { if k == 0 then v else Bump(BumpTimes(v, k - 1)) }

  /** Three bumps of `v` end at most at 125/64 v + 4. */
  lemma {:induction false} ThreeBumps(v: int, k: nat)
    requires v >= 0 && k <= 3
    ensures 0 <= BumpTimes(v, k) && v <= BumpTimes(v, k)
    ensures 64 * BumpTimes(v, k) <= 125 * v + 256
  {
    BumpRaises(v, v);
    var a := Bump(v);
    BumpRaises(a, a);
    var b := Bump(a);
    BumpRaises(b, b);
    assert BumpTimes(v, 0) == v && BumpTimes(v, 1) == a && BumpTimes(v, 2) == b && BumpTimes(v, 3) == Bump(b);
  }

  /** The fees a record is bumped to, if it has fees and the new tip stays within the limit. */
  function Bumped(p: Params): (r: Option<Params>) {
    var tip, cap := ParseDecimal(p.tip), ParseDecimal(p.maxFee);
    if tip.None? || cap.None? || Bump(tip.value) > TIP_CAP then None
    else Some(p.(tip := Show(Bump(tip.value)), maxFee := Show(Bump(cap.value))))
  }

  /** Cap and tip read back from the text of a record. */
  predicate HasFees(p: Params, cap: int, tip: int) {
    ParseDecimal(p.maxFee) == Some(cap) && ParseDecimal(p.tip) == Some(tip)
  }

  lemma {:induction false} BumpedFees(p: Params, cap: int, tip: int)
    requires HasFees(p, cap, tip) && Bumped(p).Some?
    ensures HasFees(Bumped(p).value, Bump(cap), Bump(tip))
  {
    ParseShow(Bump(cap));
    ParseShow(Bump(tip));
  }

  /** BumpETHGas.  On success the new fees read back as numbers that a node accepts as a
      replacement: both more than 12.5% up, the cap still covering the tip, the tip within 10 gwei;
      nothing else changes.  On failure nothing changes at all. */
  method BumpGas(p: Params) returns (ok: bool, q: Params)
    ensures !ok ==> q == p && Bumped(p) == None
    ensures ok ==> Bumped(p) == Some(q) && q == p.(tip := q.tip, maxFee := q.maxFee)
    ensures forall cap, tip :: ok && HasFees(p, cap, tip) && 0 <= tip <= cap ==>
      exists cap', tip' ::
        HasFees(q, cap', tip') && 8 * cap' > 9 * cap && 8 * tip' > 9 * tip && 0 <= tip' <= cap' && tip' <= TIP_CAP
  {
    q := p;
    var tip, maxFee := ParseDecimal(p.tip), ParseDecimal(p.maxFee);
    if tip.None? || maxFee.None? {
      return false, q;
    }
    var newTip := Bump(tip.value);
    if newTip > TIP_CAP {
      return false, q;
    }
    q := q.(tip := Show(newTip));
    q := q.(maxFee := Show(Bump(maxFee.value)));
    BumpedFees(p, maxFee.value, tip.value);
    if 0 <= tip.value <= maxFee.value {
      BumpRaises(tip.value, maxFee.value);
      BumpRaises(maxFee.value, maxFee.value);
    }
    return true, q;
  }

  // ----- the retry loop -----

  /** Outcome of a broadcast as the loop classifies it. */
  datatype Reply = Accepted | Underpriced | NonceTooLow | OtherError

  /** The outside world during one round: the signer, the node, and the nonce query. */
  datatype Answer = Answer(signed: bool, reply: Reply, freshNonce: Option<string>)

  /** One round of the loop: what the signer was given and what was handed to the broadcast. */
  datatype Attempt = Attempt(message: Tx, params: Params)

  datatype Outcome = NotBuilt | Sent | SigningFailed | BroadcastFailed

  /** Everything but nonce and fees. */
  predicate SameIntent(p: Params, q: Params) {
    q.gasLimit == p.gasLimit && q.chainId == p.chainId && q.from == p.from && q.to == p.to
    && q.value == p.value && q.data == p.data && q.gasPrice == p.gasPrice
  }

  /** What the next round signs after an answer, if there is one: only the two retryable errors
      lead to a round, and only with parameters that can be signed. */
  function Retry(p: Params, a: Answer): (r: Option<Params>)
    ensures r.Some? ==> SameIntent(p, r.value) && ToSign(r.value).Some?
    ensures r.Some? ==> Bumped(p) == r || (r.value.tip == p.tip && r.value.maxFee == p.maxFee)
  {
    if !a.signed then None
    else
      match a.reply
      case Underpriced => if Bumped(p).None? then None else Signable(Bumped(p).value)
      case NonceTooLow =>
        var nonce := FetchNonce(a.freshNonce);
        if nonce.None? then None else Signable(p.(nonce := nonce.value))
      case Accepted => None
      case OtherError => None
  }

  function Signable(p: Params): Option<Params> { if ToSign(p).Some? then Some(p) else None }

  /** The next round: its parameters, and the transaction they stand for. */
  function Next(current: Attempt, a: Answer): (r: Option<Attempt>) {
    var p := Retry(current.params, a);
    if p.None? then None else Some(Attempt(ToSign(p.value).value, p.value))
  }

  ghost function Nexts(world: nat -> Answer): (Attempt, nat) -> Option<Attempt> {
    (current: Attempt, i: nat) => Next(current, world(i))
  }

  /** Each round is the next one of the round before. */
  ghost predicate Chained(log: seq<Attempt>, next: (Attempt, nat) -> Option<Attempt>) {
    forall i, j :: 0 <= i < j < |log| && j == i + 1 ==> next(log[i], i) == Some(log[j])
  }

  /** The rounds start at `first`, and each follows from the answer to the one before. */
  ghost predicate Rounds(log: seq<Attempt>, first: Attempt, world: nat -> Answer) {
    log != [] && log[0] == first && Chained(log, Nexts(world))
  }

  lemma {:induction false} RoundAt(log: seq<Attempt>, first: Attempt, world: nat -> Answer, i: nat)
    requires Rounds(log, first, world) && 0 < i < |log|
    ensures Next(log[i - 1], world(i - 1)) == Some(log[i])
  {
    assert Nexts(world)(log[i - 1], i - 1) == Some(log[i]);
  }

  lemma {:induction false} ChainedAppend(log: seq<Attempt>, next: (Attempt, nat) -> Option<Attempt>, a: Attempt)
    requires log != [] && Chained(log, next) && next(log[|log| - 1], |log| - 1) == Some(a)
    ensures Chained(log + [a], next)
  {
  }

  // ----- which answer leads to what -----

  /** Another round is possible: the broadcast was refused as underpriced and the record has fees
      whose tip, a quarter up, stays within 10 gwei; or the nonce was spent and the node names a
      fresh one. */
  ghost predicate MayRetry(p: Params, a: Answer) {
    && a.signed
    && ((a.reply.Underpriced? && exists cap, tip :: HasFees(p, cap, tip) && tip + tip / 4 + 1 <= 10_000_000_000)
        || (a.reply.NonceTooLow? && HexAnswer(a.freshNonce).Some?))
  }

  /** Both fees read back a quarter up, plus one wei. */
  ghost predicate QuarterMore(p: Params, q: Params) {
    forall cap, tip :: HasFees(p, cap, tip) ==> HasFees(q, cap + cap / 4 + 1, tip + tip / 4 + 1)
  }

  /** An underpriced transaction is replaced at the same nonce with both fees a quarter up; a spent
      nonce is replaced by the number the node spells, at the same fees. */
  ghost predicate Answered(p: Params, a: Answer, q: Params) {
    && MayRetry(p, a)
    && (a.reply.Underpriced? ==> q.nonce == p.nonce && QuarterMore(p, q))
    && (a.reply.NonceTooLow? ==>
      && q.tip == p.tip && q.maxFee == p.maxFee
      && forall n: nat :: Says(a.freshNonce, n) && n < 0x1_0000_0000_0000_0000 ==> q.nonce == n)
  }

  lemma {:induction false} QuarterUp(v: int)
    ensures Bump(v) == v + v / 4 + 1
    ensures v >= 0 ==> 8 * Bump(v) > 9 * v
  {
  }

  lemma {:induction false} FeesMore(p: Params, q: Params, cap: int, tip: int)
    requires Bumped(p) == Some(q) && HasFees(p, cap, tip)
    ensures HasFees(q, Bump(cap), Bump(tip))
  {
    BumpedFees(p, cap, tip);
  }

  ghost predicate BumpMore(p: Params, q: Params) {
    forall cap, tip :: HasFees(p, cap, tip) ==> HasFees(q, Bump(cap), Bump(tip))
  }

  lemma {:induction false} BumpedBump(p: Params, q: Params)
    requires Bumped(p) == Some(q)
    ensures BumpMore(p, q) && q.nonce == p.nonce
  {
    forall cap, tip | HasFees(p, cap, tip) ensures HasFees(q, Bump(cap), Bump(tip)) {
      FeesMore(p, q, cap, tip);
    }
  }

  lemma {:induction false} BumpIsQuarter(p: Params, q: Params)
    requires BumpMore(p, q)
    ensures QuarterMore(p, q)
  {
    forall cap, tip | HasFees(p, cap, tip) ensures HasFees(q, cap + cap / 4 + 1, tip + tip / 4 + 1) {
      QuarterUp(cap);
      QuarterUp(tip);
    }
  }

  lemma {:induction false} BumpedMore(p: Params, q: Params)
    requires Bumped(p) == Some(q)
    ensures QuarterMore(p, q) && q.nonce == p.nonce
  {
    BumpedBump(p, q);
    BumpIsQuarter(p, q);
  }

  lemma {:induction false} MayBump(p: Params)
    ensures Bumped(p).Some? <==> exists cap, tip :: HasFees(p, cap, tip) && tip + tip / 4 + 1 <= 10_000_000_000
  {
    if Bumped(p).Some? {
      var cap, tip := ParseDecimal(p.maxFee).value, ParseDecimal(p.tip).value;
      QuarterUp(tip);
      assert HasFees(p, cap, tip);
    }
    if cap, tip :| HasFees(p, cap, tip) && tip + tip / 4 + 1 <= 10_000_000_000 {
      QuarterUp(tip);
    }
  }

  lemma {:induction false} UnderpricedAnswered(p: Params, a: Answer, q: Params)
    requires a.signed && a.reply.Underpriced? && Bumped(p) == Some(q)
    ensures Answered(p, a, q)
  {
    MayBump(p);
    BumpedMore(p, q);
    MoreIsAnswered(p, a, q);
  }

  lemma {:induction false} MoreIsAnswered(p: Params, a: Answer, q: Params)
    requires a.signed && a.reply.Underpriced? && q.nonce == p.nonce && QuarterMore(p, q)
    requires exists cap, tip :: HasFees(p, cap, tip) && tip + tip / 4 + 1 <= 10_000_000_000
    ensures Answered(p, a, q)
  {
  }

  lemma {:induction false} NonceAnswered(p: Params, a: Answer)
    requires a.signed && a.reply.NonceTooLow? && FetchNonce(a.freshNonce).Some?
    ensures Answered(p, a, p.(nonce := FetchNonce(a.freshNonce).value))
  {
    forall n: nat | Says(a.freshNonce, n) && n < 0x1_0000_0000_0000_0000 ensures FetchNonce(a.freshNonce) == Some(n) {
      SaidIsRead(a.freshNonce, n);
    }
  }

  lemma {:induction false} NextAnswered(current: Attempt, a: Answer)
    requires Next(current, a).Some?
    ensures Answered(current.params, a, Next(current, a).value.params)
  {
    if a.reply.Underpriced? {
      UnderpricedAnswered(current.params, a, Next(current, a).value.params);
    } else {
      NonceAnswered(current.params, a);
    }
  }

  lemma {:induction false} BumpedReadable(p: Params)
    requires ToSign(p).Some? && Bumped(p).Some?
    ensures ToSign(Bumped(p).value).Some?
  {
    BumpedFees(p, ParseDecimal(p.maxFee).value, ParseDecimal(p.tip).value);
  }

  /** A record that can be read gets another round exactly when one is possible. */
  lemma {:induction false} NextExists(current: Attempt, a: Answer)
    requires ToSign(current.params).Some?
    ensures Next(current, a).Some? <==> MayRetry(current.params, a)
  {
    MayBump(current.params);
    RetryExists(current.params, a);
  }

  lemma {:induction false} NonceReadable(p: Params, n: nat)
    ensures ToSign(p.(nonce := n)).Some? <==> ToSign(p).Some?
  {
  }

  lemma {:induction false} RetryExists(p: Params, a: Answer)
    requires ToSign(p).Some?
    ensures Retry(p, a).Some? <==>
      a.signed && ((a.reply.Underpriced? && Bumped(p).Some?) || (a.reply.NonceTooLow? && HexAnswer(a.freshNonce).Some?))
  {
    match a.reply
    case Underpriced =>
      if Bumped(p).Some? {
        BumpedReadable(p);
      }
    case NonceTooLow =>
      if FetchNonce(a.freshNonce).Some? {
        NonceReadable(p, FetchNonce(a.freshNonce).value);
      }
    case _ =>
  }

  /** The part of a round after a failed broadcast: classify the error and change the parameters. */
  method PrepareRetry(p: Params, answer: Answer) returns (next: Option<Params>)
    requires answer.signed && !answer.reply.Accepted?
    ensures next == Retry(p, answer)
  {
    if answer.reply.OtherError? {
      return None;
    }
    var params := p;
    if answer.reply.Underpriced? {
      var bumped;
      bumped, params := BumpGas(p);
      if !bumped {
        return None;
      }
    } else {
      var nonce := FetchNonce(answer.freshNonce);
      if nonce.None? {
        return None;
      }
      params := params.(nonce := nonce.value);
    }
    if ToSign(params).None? {
      return None;
    }
    return Some(params);
  }

  /** `next` names what the rounds of this world are. */
  ghost predicate Names(next: (Attempt, nat) -> Option<Attempt>, world: nat -> Answer) {
    forall a, i {:trigger Next(a, world(i))} :: next(a, i) == Next(a, world(i))
  }

  /** The end of a round that was signed but not accepted. */
  method NextRound(current: Attempt, i: nat, world: nat -> Answer, ghost next: (Attempt, nat) -> Option<Attempt>)
      returns (r: Option<Attempt>)
    requires Names(next, world) && world(i).signed && !world(i).reply.Accepted?
    ensures r == next(current, i)
  {
    var params := PrepareRetry(current.params, world(i));
    assert next(current, i) == Next(current, world(i));
    if params.None? {
      return None;
    }
    return Some(Attempt(ToSign(params.value).value, params.value));
  }

  lemma {:induction false} NoRetryNeeded(current: Attempt, i: nat, world: nat -> Answer,
                                         next: (Attempt, nat) -> Option<Attempt>)
    requires Names(next, world) && (!world(i).signed || world(i).reply.Accepted?)
    ensures next(current, i) == None
  {
    assert next(current, i) == Next(current, world(i));
  }

  function Result(a: Answer): (r: Outcome) {
    if !a.signed then SigningFailed else if a.reply.Accepted? then Sent else BroadcastFailed
  }

  /** The loop of signAndBroadcast. */
  method RunRounds(evm: bool, first: Attempt, world: nat -> Answer, ghost next: (Attempt, nat) -> Option<Attempt>)
      returns (log: seq<Attempt>, outcome: Outcome)
    requires Names(next, world)
    ensures 1 <= |log| <= MAX_ATTEMPTS && (!evm ==> |log| == 1)
    ensures log[0] == first && Chained(log, next)
    ensures evm && |log| < MAX_ATTEMPTS ==> next(log[|log| - 1], |log| - 1) == None
    ensures outcome == Result(world(|log| - 1))
  {
    var current := first;
    log := [current];
    var attempt: nat := 0;
    while true
      invariant |log| == attempt + 1 <= MAX_ATTEMPTS && (!evm ==> attempt == 0)
      invariant log[0] == first && log[attempt] == current && Chained(log, next)
      decreases MAX_ATTEMPTS - attempt
    {
      var answer := world(attempt);
      if !answer.signed {
        NoRetryNeeded(current, attempt, world, next);
        return log, SigningFailed;
      }
      if answer.reply.Accepted? {
        NoRetryNeeded(current, attempt, world, next);
        return log, Sent;
      }
      if !evm || attempt + 1 >= MAX_ATTEMPTS {
        return log, BroadcastFailed;
      }
      var following := NextRound(current, attempt, world, next);
      if following.None? {
        return log, BroadcastFailed;
      }
      ChainedAppend(log, next, following.value);
      current := following.value;
      log := log + [current];
      attempt := attempt + 1;
    }
  }

  /** signAndBroadcast, from any message and any stored parameters.  `evm` makes the loop eligible
      for retries; other families take one round.  It ends only when it may not go on: success,
      failure to sign, four rounds, or an answer that allows no retry. */
  method SignAndBroadcast(evm: bool, message: Tx, params: Params, world: nat -> Answer)
      returns (log: seq<Attempt>, outcome: Outcome)
    ensures 1 <= |log| <= 4 && (!evm ==> |log| == 1)
    ensures Rounds(log, Attempt(message, params), world)
    ensures forall i, j :: 0 <= i < j < |log| && j == i + 1 ==> Answered(log[i].params, world(i), log[j].params)
    ensures evm && |log| < 4 && ToSign(params).Some? ==> !MayRetry(log[|log| - 1].params, world(|log| - 1))
    ensures outcome == Result(world(|log| - 1))
  {
    log, outcome := RunRounds(evm, Attempt(message, params), world, Nexts(world));
    RoundsAnswered(log, Attempt(message, params), world);
    if evm && |log| < 4 && ToSign(params).Some? {
      LastRound(log, Attempt(message, params), world);
    }
  }

  lemma {:induction false} RoundAnswered(log: seq<Attempt>, first: Attempt, world: nat -> Answer, i: nat)
    requires Rounds(log, first, world) && i + 1 < |log|
    ensures Answered(log[i].params, world(i), log[i + 1].params)
  {
    RoundAt(log, first, world, i + 1);
    NextAnswered(log[i], world(i));
  }

  lemma {:induction false} RoundsAnswered(log: seq<Attempt>, first: Attempt, world: nat -> Answer)
    requires Rounds(log, first, world)
    ensures forall i, j :: 0 <= i < j < |log| && j == i + 1 ==> Answered(log[i].params, world(i), log[j].params)
  {
    forall i, j | 0 <= i < j < |log| && j == i + 1 ensures Answered(log[i].params, world(i), log[j].params) {
      RoundAnswered(log, first, world, i);
    }
  }

  lemma {:induction false} RoundReadable(log: seq<Attempt>, first: Attempt, world: nat -> Answer, i: nat)
    requires Rounds(log, first, world) && i < |log| && ToSign(first.params).Some?
    ensures ToSign(log[i].params).Some?
  {
    if i > 0 {
      RoundAt(log, first, world, i);
    }
  }

  lemma {:induction false} LastRound(log: seq<Attempt>, first: Attempt, world: nat -> Answer)
    requires Rounds(log, first, world) && ToSign(first.params).Some?
    requires Nexts(world)(log[|log| - 1], |log| - 1) == None
    ensures !MayRetry(log[|log| - 1].params, world(|log| - 1))
  {
    RoundReadable(log, first, world, |log| - 1);
    NextExists(log[|log| - 1], world(|log| - 1));
  }

  // ----- what the rounds imply -----

  /** How a signed transaction may differ from the one of the round before: a fresh nonce, or both
      fees bumped once with the tip within the limit. */
  predicate Escalates(t: Tx, u: Tx) {
    && SameRequest(u, t) && u.chainId == t.chainId
    && ((u.tip == t.tip && u.maxFee == t.maxFee)
        || (u.tip == Bump(t.tip) && u.maxFee == Bump(t.maxFee) && u.tip <= TIP_CAP))
  }

  lemma {:induction false} BumpEscalates(p: Params, t: Tx, u: Tx)
    requires ToSign(p) == Some(t) && Bumped(p).Some? && ToSign(Bumped(p).value) == Some(u)
    ensures Escalates(t, u)
  {
    var cap, tip := ParseDecimal(p.maxFee).value, ParseDecimal(p.tip).value;
    BumpedFees(p, cap, tip);
    assert p.maxFee != "";
    assert Fees(p) == Some((cap, tip));
    assert Fees(Bumped(p).value) == Some((Bump(cap), Bump(tip)));
  }

  lemma {:induction false} StepEscalates(before: Attempt, a: Answer, next: Attempt)
    requires Next(before, a) == Some(next) && ToSign(before.params) == Some(before.message)
    ensures Escalates(before.message, next.message)
  {
    var q := Retry(before.params, a).value;
    assert ToSign(q) == Some(next.message);
    if Bumped(before.params) == Some(q) {
      BumpEscalates(before.params, before.message, next.message);
    } else {
      NonceEscalates(before.params, q, before.message, next.message);
    }
  }

  lemma {:induction false} NonceEscalates(p: Params, q: Params, t: Tx, u: Tx)
    requires ToSign(p) == Some(t) && ToSign(q) == Some(u) && SameIntent(p, q) && q.tip == p.tip && q.maxFee == p.maxFee
    ensures Escalates(t, u)
  {
  }

  lemma {:induction false} SoundIfSigned(p: Params, t: Tx)
    requires ToSign(p) == Some(t)
    ensures Sound(Built(t, p))
  {
    forall signature: seq<byte> | |signature| >= 64 ensures ToBroadcast(p, signature) == Some(t) {
      SignedIsBroadcast(p, signature);
    }
  }

  /** If the first message is what the first parameters stand for, so is every round's. */
  lemma {:induction false} RoundsSigned(log: seq<Attempt>, first: Attempt, world: nat -> Answer, i: nat)
    requires Rounds(log, first, world) && i < |log| && ToSign(first.params) == Some(first.message)
    ensures ToSign(log[i].params) == Some(log[i].message)
  {
    if i > 0 {
      RoundAt(log, first, world, i);
    }
  }

  function Messages(log: seq<Attempt>): (ts: seq<Tx>)
    ensures |ts| == |log| && forall i :: 0 <= i < |ts| ==> ts[i] == log[i].message
  {
    seq(|log|, i requires 0 <= i < |log| => log[i].message)
  }

  ghost predicate Escalation(ts: seq<Tx>) { forall i, j :: 0 <= i < j < |ts| && j == i + 1 ==> Escalates(ts[i], ts[j]) }

  lemma {:induction false} RoundEscalates(log: seq<Attempt>, first: Attempt, world: nat -> Answer, i: nat)
    requires Rounds(log, first, world) && 0 < i < |log| && ToSign(log[i - 1].params) == Some(log[i - 1].message)
    ensures Escalates(log[i - 1].message, log[i].message)
  {
    RoundAt(log, first, world, i);
    StepEscalates(log[i - 1], world(i - 1), log[i]);
  }

  lemma {:induction false} RoundsEscalate(log: seq<Attempt>, first: Attempt, world: nat -> Answer)
    requires Rounds(log, first, world) && ToSign(first.params) == Some(first.message)
    ensures Escalation(Messages(log))
  {
    forall i, j | 0 <= i < j < |log| && j == i + 1 ensures Escalates(log[i].message, log[j].message) {
      RoundsSigned(log, first, world, i);
      RoundEscalates(log, first, world, j);
    }
  }

  /** What is asked for never changes: recipient, value, data, gas and chain of every signed
      transaction are those of the first. */
  lemma {:induction false} IntentKept(ts: seq<Tx>, i: nat)
    requires Escalation(ts) && i < |ts|
    ensures SameRequest(ts[i], ts[0]) && ts[i].chainId == ts[0].chainId
  {
    if i > 0 {
      IntentKept(ts, i - 1);
    }
  }

  /** Fees after `i` rounds are the first fees bumped at most `i` times, the cap stays at least the
      tip, and a tip that was bumped is within the limit. */
  lemma {:induction false} FeesBounded(ts: seq<Tx>, i: nat) returns (k: nat)
    requires Escalation(ts) && i < |ts| && FeesOrdered(ts[0])
    ensures k <= i
    ensures ts[i].maxFee == BumpTimes(ts[0].maxFee, k) && ts[i].tip == BumpTimes(ts[0].tip, k)
    ensures FeesOrdered(ts[i]) && (k > 0 ==> ts[i].tip <= TIP_CAP)
  {
    if i == 0 {
      k := 0;
    } else {
      k := FeesBounded(ts, i - 1);
      var t, u := ts[i - 1], ts[i];
      assert Escalates(t, u);
      BumpRaises(t.tip, t.maxFee);
      if u.tip != t.tip || u.maxFee != t.maxFee {
        k := k + 1;
      }
    }
  }

  /** Fees of a round against those of the first: both within 125/64 plus 4 wei, never lower, the
      cap covering the tip. */
  predicate FeesWithin(t: Tx, cap: int, tip: int) {
    && tip <= t.tip <= t.maxFee && cap <= t.maxFee
    && 64 * t.maxFee <= 125 * cap + 256 && 64 * t.tip <= 125 * tip + 256
    && (t.tip == tip || t.tip <= TIP_CAP)
  }

  lemma {:induction false} FinalFees(ts: seq<Tx>, i: nat)
    requires Escalation(ts) && i < |ts| <= MAX_ATTEMPTS && FeesOrdered(ts[0])
    ensures FeesWithin(ts[i], ts[0].maxFee, ts[0].tip)
  {
    var k := FeesBounded(ts, i);
    ThreeBumps(ts[0].maxFee, k);
    ThreeBumps(ts[0].tip, k);
  }

  // ----- from request to broadcast -----

  /** What every round of an order promises: the node is sent what was signed, and that is the order. */
  ghost predicate Honest(o: Order, a: Attempt) { Sound(Built(a.message, a.params)) && Carries(o, a.message) }

  /** The direct path: build, then sign and broadcast with retries, for all answers of node and
      signer.  Every round is honest; with a base fee that is not negative fees stay bounded. */
  method SendOrder(n: Node, o: Order, world: nat -> Answer) returns (log: seq<Attempt>, outcome: Outcome)
    ensures log == [] <==> Build(n, o).None?
    ensures |log| <= MAX_ATTEMPTS && forall i :: 0 <= i < |log| ==> Honest(o, log[i])
    ensures log != [] && BaseFee(n).value >= 0 ==>
      forall i :: 0 <= i < |log| ==> FeesWithin(log[i].message, log[0].message.maxFee, log[0].message.tip)
    ensures outcome == if log == [] then NotBuilt else Result(world(|log| - 1))
  {
    var built := Build(n, o);
    if built.None? {
      return [], NotBuilt;
    }
    BuiltFacts(n, o, built.value);
    log, outcome := SendBuilt(o, built.value, world);
  }

  lemma {:induction false} BuiltFacts(n: Node, o: Order, b: Built)
    requires Build(n, o) == Some(b)
    ensures ToSign(b.params) == Some(b.tx) && Carries(o, b.tx)
    ensures BaseFee(n).Some? && (FeesOrdered(b.tx) <==> BaseFee(n).value >= 0)
  {
    BuiltIsBroadcast(n, o);
    BuiltCarries(n, o);
    FeesOrderedIff(n, o, b.params);
  }

  method SendBuilt(o: Order, b: Built, world: nat -> Answer) returns (log: seq<Attempt>, outcome: Outcome)
    requires ToSign(b.params) == Some(b.tx) && Carries(o, b.tx)
    ensures 1 <= |log| <= MAX_ATTEMPTS && log[0] == Attempt(b.tx, b.params)
    ensures forall i :: 0 <= i < |log| ==> Honest(o, log[i])
    ensures FeesOrdered(b.tx) ==> forall i :: 0 <= i < |log| ==> FeesWithin(log[i].message, b.tx.maxFee, b.tx.tip)
    ensures outcome == Result(world(|log| - 1))
  {
    log, outcome := SignAndBroadcast(true, b.tx, b.params, world);
    AllHonest(o, log, Attempt(b.tx, b.params), world);
  }

  lemma {:induction false} AllHonest(o: Order, log: seq<Attempt>, first: Attempt, world: nat -> Answer)
    requires Rounds(log, first, world) && |log| <= MAX_ATTEMPTS
    requires ToSign(first.params) == Some(first.message) && Carries(o, first.message)
    ensures log[0] == first && forall i :: 0 <= i < |log| ==> Honest(o, log[i])
    ensures FeesOrdered(first.message) ==>
      forall i :: 0 <= i < |log| ==> FeesWithin(log[i].message, first.message.maxFee, first.message.tip)
  {
    var ts := Messages(log);
    RoundsEscalate(log, first, world);
    forall i | 0 <= i < |log| ensures Honest(o, log[i]) {
      IntentKept(ts, i);
      RoundsSigned(log, first, world, i);
      SoundIfSigned(log[i].params, log[i].message);
    }
    if FeesOrdered(first.message) {
      forall i | 0 <= i < |log| ensures FeesWithin(log[i].message, first.message.maxFee, first.message.tip) {
        FinalFees(ts, i);
      }
    }
  }

  /** The approval path, on parameters that were stored when the order was built: refresh, sign once
      and broadcast once.  What is signed is what is broadcast, and it is the stored order. */
  method SendApproved(stored: Params, now: Node, answer: Answer, ghost before: Node, ghost o: Order)
      returns (attempt: Option<Attempt>, outcome: Outcome)
    requires Build(before, o).Some? && Build(before, o).value.params == stored
    ensures attempt.None? <==> Fetch(now).None?
    ensures attempt.Some? ==> Honest(o, attempt.value) && SameRequest(attempt.value.message, Build(before, o).value.tx)
    ensures attempt.Some? ==> (FeesOrdered(attempt.value.message) <==> BaseFee(now).value >= 0)
    ensures outcome == match attempt
      case None => NotBuilt
      case Some(_) => Result(answer)
  {
    ApprovedFacts(before, o, Build(before, o).value, now);
    var refreshed := Rebuild(now, stored);
    if refreshed.None? {
      return None, NotBuilt;
    }
    attempt := Some(Attempt(refreshed.value.tx, refreshed.value.params));
    outcome := if !answer.signed then SigningFailed else if answer.reply.Accepted? then Sent else BroadcastFailed;
  }

  lemma {:induction false} ApprovedFacts(before: Node, o: Order, stored: Built, now: Node)
    requires Build(before, o) == Some(stored)
    ensures Rebuild(now, stored.params).None? <==> Fetch(now).None?
    ensures Rebuild(now, stored.params).Some? ==>
      var b := Rebuild(now, stored.params).value;
      && Honest(o, Attempt(b.tx, b.params)) && SameRequest(b.tx, stored.tx)
      && BaseFee(now).Some? && (FeesOrdered(b.tx) <==> BaseFee(now).value >= 0)
  {
    BuiltIsBroadcast(before, o);
    RebuildKeeps(now, stored.params);
    if Rebuild(now, stored.params).Some? {
      ApprovedCarriesOrder(before, now, o);
      FeesOrderedIff(now, o, stored.params);
    }
  }
}
