/** The approval policy of one wallet and the gate in front of the signer (handler/wallet.go,
    handler/contract_call.go, handler/approval.go).

    The policy row is changed by settings requests and by the daily counter; the gate decides
    whether a request is signed at once, waits for a passkey, or is refused.  The counter's
    arithmetic is the one of the concurrent model; here each request runs alone. */
module SpendingPolicy {
  import opened WalletModel

  /** A decimal text: absent, not a number, or a number of micro-USD. */
  datatype Usd = Unset | Malformed | Micro(v: int)

  datatype Settings = Settings(threshold: Usd, dailyLimit: Usd, enabled: bool)

  datatype Stored = NoPolicy | Stored(settings: Settings, ledger: Ledger)

  datatype Reply = Invalid | Unchanged | Proposed | Denied | Saved

  /** `Direct` goes to the signer with what was reserved for it. */
  datatype Decision = Direct(reserved: nat) | AskPasskey | OverLimit

  /** Micro-USD per unit from each price source; zero when a source has no answer. */
  datatype PriceBook = PriceBook(bySymbol: nat, byContract: nat, jupiter: nat, lastResort: nat)

  /** What is sent: `token` when it has a contract address, `named` when its symbol is known. */
  datatype Asset = Asset(token: bool, solana: bool, named: bool)

  predicate Positive(u: Usd) { u.Micro? && u.v > 0 }

  predicate Sound(s: Settings) { Positive(s.threshold) && (s.dailyLimit.Unset? || Positive(s.dailyLimit)) }

  predicate ExceedsThreshold(amount: nat, threshold: Usd) { Positive(threshold) && amount > threshold.v }

  predicate Active(p: Stored) { p.Stored? && p.settings.enabled }

  /** The daily limit that applies, if any. */
  predicate Limited(p: Stored) { Active(p) && Positive(p.settings.dailyLimit) }

  predicate FitsToday(p: Stored, amount: nat, today: nat)
    requires p.Stored? && p.settings.dailyLimit.Micro?
  {
    Base(p.ledger, today) + amount <= p.settings.dailyLimit.v
  }

  /** Which sources may price the asset. */
  predicate Priced(book: PriceBook, asset: Asset) {
    book.bySymbol > 0
    || (asset.token && (book.byContract > 0 || (asset.solana && book.jupiter > 0) || (asset.named && book.lastResort > 0)))
  }

  /** What an amount is worth: the first source in the order symbol, contract, Jupiter for Solana
      tokens, last resort for named tokens, times the amount; nothing without a price. */
  predicate ValuedAt(book: PriceBook, asset: Asset, amount: nat, usd: nat) {
    var byContract := asset.token && book.byContract > 0;
    var byJupiter := asset.token && asset.solana && book.jupiter > 0;
    && (book.bySymbol > 0 ==> usd == amount * book.bySymbol)
    && (book.bySymbol == 0 && byContract ==> usd == amount * book.byContract)
    && (book.bySymbol == 0 && !byContract && byJupiter ==> usd == amount * book.jupiter)
    && (book.bySymbol == 0 && !byContract && !byJupiter && asset.token && asset.named ==> usd == amount * book.lastResort)
    && (!Priced(book, asset) ==> usd == 0)
  }

  class PolicyStore {
    var policy: Stored
    var proposals: map<nat, Settings>

    /** Whatever was requested before, stored and proposed settings are sound. */
    ghost predicate Valid()
      reads this
    {
      && (policy.Stored? ==> Sound(policy.settings))
      && (forall id :: id in proposals ==> Sound(proposals[id]))
    }

    constructor ()
      ensures Valid() && policy == NoPolicy && proposals == map[]
    {
      policy, proposals := NoPolicy, map[];
    }

    method Apply(s: Settings)
      modifies this`policy
      ensures policy == Stored(s, if old(policy).Stored? then old(policy).ledger else Ledger(0, 0))
    {
      policy := if policy.Stored? then policy.(settings := s) else Stored(s, Ledger(0, 0));
    }

    /** An API key only proposes; a passkey needs a fresh assertion. */
    method SetPolicy(s: Settings, passkey: bool, asserted: bool, id: nat) returns (r: Reply)
      requires Valid()
      modifies this
      ensures Valid()
      ensures r.Invalid? <==> !Sound(s)
      ensures r.Saved? <==> Sound(s) && passkey && asserted && !(old(policy).Stored? && old(policy).settings == s)
      ensures r.Saved? ==> passkey && asserted
      ensures r.Proposed? ==> !passkey
      ensures !r.Saved? ==> policy == old(policy)
      ensures r.Saved? ==> policy.Stored? && policy.settings == s
      ensures old(policy).Stored? && r.Saved? ==> policy.ledger == old(policy).ledger
      ensures proposals == if r.Proposed? then old(proposals)[id := s] else old(proposals)
    {
      if !s.threshold.Micro? || s.threshold.v <= 0 {
        return Invalid;
      }
      if !s.dailyLimit.Unset? {
        if !s.dailyLimit.Micro? || s.dailyLimit.v <= 0 {
          return Invalid;
        }
      }
      if policy.Stored? && policy.settings == s {
        return Unchanged;
      }
      if !passkey {
        proposals := proposals[id := s];
        return Proposed;
      }
      if !asserted {
        return Denied;
      }
      Apply(s);
      return Saved;
    }

    /** Applying a proposal whose approval was granted keeps today's counter. */
    method ApproveChange(id: nat)
      requires Valid() && id in proposals
      modifies this
      ensures Valid() && proposals == old(proposals)
      ensures policy.Stored? && policy.settings == proposals[id]
      ensures old(policy).Stored? ==> policy.ledger == old(policy).ledger
    {
      Apply(proposals[id]);
    }

    method DeletePolicy(asserted: bool)
      requires Valid()
      modifies this
      ensures Valid() && proposals == old(proposals)
      ensures policy == if asserted then NoPolicy else old(policy)
    {
      if asserted {
        policy := NoPolicy;
      }
    }

    // ----- the daily counter -----

    method CheckAndDeduct(amount: nat, today: nat) returns (exceeded: bool)
      requires Valid()
      modifies this`policy
      ensures Valid()
      ensures exceeded <==> Limited(old(policy)) && amount > 0 && !FitsToday(old(policy), amount, today)
      ensures policy ==
        if Limited(old(policy)) && amount > 0 && !exceeded
        then old(policy).(ledger := Debited(old(policy).ledger, today, amount)) else old(policy)
    {
      if !policy.Stored? || !policy.settings.enabled || policy.settings.dailyLimit.Unset? {
        return false;
      }
      if !policy.settings.dailyLimit.Micro? || policy.settings.dailyLimit.v <= 0 {
        return false;
      }
      if amount == 0 {
        return false;
      }
      var spent, day := policy.ledger.spent, policy.ledger.day;
      if day < today {
        spent, day := 0, today;
      }
      var newSpent := spent + amount;
      if newSpent > policy.settings.dailyLimit.v {
        return true;
      }
      policy := policy.(ledger := Ledger(newSpent, day));
      return false;
    }

    method Release(amount: nat, today: nat)
      requires Valid()
      modifies this`policy
      ensures Valid()
      ensures policy ==
        if Active(old(policy)) && amount > 0 && old(policy).ledger.day >= today
        then old(policy).(ledger := Refunded(old(policy).ledger, amount)) else old(policy)
    {
      if amount == 0 || !policy.Stored? || !policy.settings.enabled {
        return;
      }
      if policy.ledger.day < today {
        return;
      }
      var newSpent := policy.ledger.spent - amount;
      if newSpent < 0 {
        newSpent := 0;
      }
      policy := policy.(ledger := policy.ledger.(spent := newSpent));
    }

    method Add(amount: nat, today: nat)
      requires Valid()
      modifies this`policy
      ensures Valid()
      ensures policy ==
        if Active(old(policy)) && amount > 0
        then old(policy).(ledger := Debited(old(policy).ledger, today, amount)) else old(policy)
    {
      if amount == 0 || !policy.Stored? || !policy.settings.enabled {
        return;
      }
      var spent, day := policy.ledger.spent, policy.ledger.day;
      if day < today {
        spent, day := 0, today;
      }
      policy := policy.(ledger := Ledger(spent + amount, day));
    }

    // ----- the gate -----

    /** /transfer; wrapping SOL is the case of an asset that is not a token.  The decision is exact in
        what the amount is worth.  A request sent to a passkey, or refused, leaves today's counter as
        it was. */
    method DecideTransfer(passkey: bool, asset: Asset, amount: nat, book: PriceBook, today: nat)
        returns (d: Decision, ghost usd: nat)
      requires Valid() && amount > 0
      modifies this`policy
      ensures Valid()
      ensures ValuedAt(book, asset, amount, usd)
      ensures d.Direct? <==>
        || !Active(old(policy))
        || (usd == 0 && (passkey || !asset.token))
        || (&& usd > 0
            && usd <= old(policy).settings.threshold.v
            && (Limited(old(policy)) ==> FitsToday(old(policy), usd, today)))
      ensures d.OverLimit? <==> Limited(old(policy)) && usd > 0 && !FitsToday(old(policy), usd, today)
      ensures d.Direct? ==> d.reserved == if Limited(old(policy)) then usd else 0
      ensures d.Direct? && d.reserved > 0 ==>
        && Limited(old(policy))
        && policy == old(policy).(ledger := Debited(old(policy).ledger, today, d.reserved))
        && policy.ledger.spent <= policy.settings.dailyLimit.v
      ensures !d.Direct? || d.reserved == 0 ==>
        && policy.Stored? == old(policy).Stored?
        && (policy.Stored? ==>
          policy.settings == old(policy).settings && Base(policy.ledger, today) == Base(old(policy).ledger, today))
    {
      var amountUsd := AskSources(asset, amount, book);
      usd := amountUsd;
      if !policy.Stored? || !policy.settings.enabled {
        amountUsd := 0;
      } else if amountUsd == 0 && asset.token && !passkey {
        d := AskPasskey;
        return;
      }
      var deducted := 0;
      if policy.Stored? && policy.settings.enabled && !policy.settings.dailyLimit.Unset? && amountUsd > 0 {
        var exceeded := CheckAndDeduct(amountUsd, today);
        if exceeded {
          d := OverLimit;
          return;
        }
        deducted := amountUsd;
      }
      if policy.Stored? && policy.settings.enabled && amountUsd > 0 && ExceedsThreshold(amountUsd, policy.settings.threshold) {
        if deducted > 0 {
          Release(deducted, today);
        }
        d := AskPasskey;
        return;
      }
      d := Direct(deducted);
    }

    /** Contract calls and token approvals: `value` is what a payable call sends along. */
    method DecideCall(passkey: bool, value: nat, price: nat, today: nat) returns (d: Decision)
      requires Valid()
      modifies this`policy
      ensures Valid()
      ensures !passkey ==> d.AskPasskey?
      ensures d.Direct? <==>
        passkey && (Active(old(policy)) && value * price > 0 ==>
          && value * price <= old(policy).settings.threshold.v
          && (Limited(old(policy)) ==> FitsToday(old(policy), value * price, today)))
      ensures !d.Direct? ==> policy == old(policy)
      ensures d.Direct? ==> d.reserved == if Limited(old(policy)) then value * price else 0
      ensures d.Direct? ==>
        policy == if Limited(old(policy)) && value * price > 0
          then old(policy).(ledger := Debited(old(policy).ledger, today, value * price)) else old(policy)
    {
      var usd := value * price;
      if !passkey {
        return AskPasskey;
      }
      if usd > 0 && policy.Stored? && policy.settings.enabled && ExceedsThreshold(usd, policy.settings.threshold) {
        return AskPasskey;
      }
      var deducted := 0;
      if usd > 0 && policy.Stored? && policy.settings.enabled && !policy.settings.dailyLimit.Unset? {
        var exceeded := CheckAndDeduct(usd, today);
        if exceeded {
          return OverLimit;
        }
        deducted := usd;
      }
      return Direct(deducted);
    }
  }

  // ----- prices -----

  /** The nested lookups of the handler. */
  method AskSources(asset: Asset, amount: nat, book: PriceBook) returns (usd: nat)
    requires amount > 0
    ensures ValuedAt(book, asset, amount, usd)
    ensures usd > 0 <==> Priced(book, asset)
  {
    usd := 0;
    if book.bySymbol > 0 {
      usd := amount * book.bySymbol;
    } else if asset.token {
      if book.byContract > 0 {
        usd := amount * book.byContract;
      } else if asset.solana {
        if book.jupiter > 0 {
          usd := amount * book.jupiter;
        }
      }
    }
    if usd == 0 && asset.token && asset.named {
      if book.lastResort > 0 {
        usd := amount * book.lastResort;
      }
    }
  }

  /** The gate at a concrete input: under an active policy with a threshold of one micro-USD, an API
      key's transfer of a million units of a native coin without a price is signed at once. */
  method UnpricedCoin() returns (active: bool, d: Decision)
    ensures active && d == Direct(0)
  {
    var store := new PolicyStore();
    var _ := store.SetPolicy(Settings(Micro(1), Micro(1), true), true, true, 0);
    active := store.policy.Stored? && store.policy.settings.enabled;
    var coin := Asset(false, false, true);
    ghost var usd;
    d, usd := store.DecideTransfer(false, coin, 1_000_000, PriceBook(0, 0, 0, 0), 0);
  }

  // ----- whole runs -----

  datatype Ask =
    | Configure(s: Settings, passkey: bool, asserted: bool, id: nat)
    | Grant(id: nat)
    | Drop(asserted: bool)
    | Spend(passkey: bool, asset: Asset, amount: nat, book: PriceBook, today: nat)
    | Invoke(passkey: bool, value: nat, price: nat, today: nat)

  /** One request with the policy it met and, for a spend or a call, the decision. */
  datatype Entry = Entry(before: Stored, ask: Ask, decision: Decision)

  /** What the gate promises: an API key's token transfer is signed at once under an active policy
      only with a known price, within the threshold and within the day's limit; its contract
      calls never are. */
  ghost predicate Guarded(e: Entry) {
    && (e.before.Stored? ==> Sound(e.before.settings))
    && (e.ask.Spend? && e.ask.asset.token && !e.ask.passkey && Active(e.before) && e.decision.Direct? ==>
      && Priced(e.ask.book, e.ask.asset)
      && forall usd: nat :: ValuedAt(e.ask.book, e.ask.asset, e.ask.amount, usd) ==>
        && usd <= e.before.settings.threshold.v
        && (Limited(e.before) ==> FitsToday(e.before, usd, e.ask.today)))
    && (e.ask.Invoke? && !e.ask.passkey ==> e.decision.AskPasskey?)
  }

  /** The settings come from a proposal an API key made among the first `n` requests. */
  ghost predicate ProposedBefore(asks: seq<Ask>, n: nat, id: nat, s: Settings) {
    exists j :: 0 <= j < n <= |asks| && asks[j].Configure? && asks[j].id == id && asks[j].s == s && !asks[j].passkey
  }

  predicate SameSettings(p: Stored, q: Stored) {
    p.Stored? == q.Stored? && (p.Stored? ==> p.settings == q.settings)
  }

  /** How request `i` may have changed the settings: a passkey set or dropped them, or a proposal
      made earlier was granted. */
  ghost predicate Changed(asks: seq<Ask>, i: nat, before: Stored, after: Stored)
    requires i < |asks|
  {
    match asks[i]
    case Configure(s, passkey, asserted, _) =>
      SameSettings(before, after) || (passkey && asserted && after.Stored? && after.settings == s)
    case Grant(id) =>
      SameSettings(before, after) || (after.Stored? && ProposedBefore(asks, i, id, after.settings))
    case Drop(asserted) => after == if asserted then NoPolicy else before
    case _ => SameSettings(before, after)
  }

  /** Every sequence of requests against a new wallet, however settings change in between:
      `policies` are the policies between the requests. */
  method Govern(asks: seq<Ask>) returns (policies: seq<Stored>, decisions: seq<Decision>)
    ensures |decisions| == |asks| && |policies| == |asks| + 1 && policies[0] == NoPolicy
    ensures forall i :: 0 <= i < |asks| ==> Guarded(Entry(policies[i], asks[i], decisions[i]))
    ensures forall i :: 0 <= i < |asks| ==> Changed(asks, i, policies[i], policies[i + 1])
  {
    var store := new PolicyStore();
    policies, decisions := [store.policy], [];
    for i := 0 to |asks|
      invariant store.Valid() && fresh(store)
      invariant |policies| == i + 1 && |decisions| == i && policies[0] == NoPolicy && policies[i] == store.policy
      invariant forall id :: id in store.proposals ==> ProposedBefore(asks, i, id, store.proposals[id])
      invariant forall j :: 0 <= j < i ==> Guarded(Entry(policies[j], asks[j], decisions[j]))
      invariant forall j :: 0 <= j < i ==> Changed(asks, j, policies[j], policies[j + 1])
    {
      ghost var before, proposed := store.policy, store.proposals;
      var d := AskPasskey;
      match asks[i] {
      case Configure(s, passkey, asserted, id) =>
        var _ := store.SetPolicy(s, passkey, asserted, id);
      case Grant(id) =>
        if id in store.proposals {
          store.ApproveChange(id);
        }
      case Drop(asserted) =>
        store.DeletePolicy(asserted);
      case Spend(passkey, asset, amount, book, today) =>
        if amount > 0 {
          ghost var usd;
          d, usd := store.DecideTransfer(passkey, asset, amount, book, today);
        }
      case Invoke(passkey, value, price, today) =>
        d := store.DecideCall(passkey, value, price, today);
      }
      assert Guarded(Entry(before, asks[i], d));
      assert Changed(asks, i, before, store.policy);
      policies, decisions := policies + [store.policy], decisions + [d];
      StillProposed(asks, i, proposed, store.proposals);
    }
  }

  lemma {:induction false} StillProposed(asks: seq<Ask>, i: nat, before: map<nat, Settings>, after: map<nat, Settings>)
    requires i < |asks|
    requires forall id :: id in before ==> ProposedBefore(asks, i, id, before[id])
    requires after == before || (asks[i].Configure? && !asks[i].passkey && after == before[asks[i].id := asks[i].s])
    ensures forall id :: id in after ==> ProposedBefore(asks, i + 1, id, after[id])
  {
    forall id | id in after ensures ProposedBefore(asks, i + 1, id, after[id]) {
      if id in before && after[id] == before[id] {
        assert ProposedBefore(asks, i, id, before[id]);
      }
    }
  }
}
