/** EVM transactions from request to broadcast (chain/tx_eth.go, chain/nonce.go).

    A builder asks the node for nonce, fees and chain id, hashes a transaction made of numbers and
    bytes, and stores the same transaction as decimal and hex text.  At approval time the text is
    read again, refreshed and hashed; at broadcast time it is read once more.  A hash is represented
    by the transaction it is taken of, so equal transactions here are equal hashes there. */
module EthTx {
  import opened Options
  import opened Numerals
  import opened IntText
  import AbiWords

  /** The unsigned EIP-1559 transaction; its hash is what the signer signs. */
  datatype Tx = Tx(
    chainId: int, nonce: nat, tip: int, maxFee: int, gas: nat, to: seq<byte>, value: int, data: seq<byte>)

  /** The stored parameters (ETHTxParams); `gasPrice` is the legacy fallback. */
  datatype Params = Params(
    nonce: nat, maxFee: string, tip: string, gasLimit: nat, chainId: string,
    from: string, to: string, value: string, data: string, gasPrice: string)

  /** What a builder returns: the hashed transaction and the text to store. */
  datatype Built = Built(tx: Tx, params: Params)

  // ----- reading stored text -----

  /** common.HexToAddress: any text is some address. */
  function HexToAddress(s: string): (a: seq<byte>)
    ensures |a| == 20
  {
    var bare := if |s| >= 2 && s[0] == '0' && (s[1] == 'x' || s[1] == 'X') then s[2..] else s;
    AbiWords.Fit20(HexRead(if |bare| % 2 == 1 then "0" + bare else bare))
  }

  /** The usual spelling of an address: forty hex digits in either case, with or without a prefix. */
  predicate Spells(text: string, a: seq<byte>) {
    |a| == 20
    && (SpellsBare(text, a)
        || (|text| == 42 && text[0] == '0' && (text[1] == 'x' || text[1] == 'X') && SpellsBare(text[2..], a)))
  }

  predicate SpellsBare(bare: string, a: seq<byte>) {
    |a| == 20 && |bare| == 40 && forall i :: 0 <= i < 20 ==> SpellsByte(bare, i, a[i])
  }

  predicate SpellsByte(bare: string, i: nat, v: byte)
    requires 2 * i + 1 < |bare|
  {
    && (bare[2 * i] == HEX_LOWER[v / 16] || bare[2 * i] == HEX_UPPER[v / 16])
    && (bare[2 * i + 1] == HEX_LOWER[v % 16] || bare[2 * i + 1] == HEX_UPPER[v % 16])
  }

  lemma {:induction false} BareRead(bare: string, a: seq<byte>)
    requires SpellsBare(bare, a)
    ensures HexRead(bare) == a && (bare[1] != 'x' && bare[1] != 'X')
  {
    forall i | 0 <= i < 20 ensures PairIs(bare, i, a[i]) {
      ByteRead(bare, i, a[i]);
    }
    HexReadPairs(bare, a);
    assert PairIs(bare, 0, a[0]);
  }

  lemma {:induction false} ByteRead(bare: string, i: nat, v: byte)
    requires 2 * i + 1 < |bare| && SpellsByte(bare, i, v)
    ensures PairIs(bare, i, v)
  {
    HexDigitExactly(bare[2 * i], v / 16);
    HexDigitExactly(bare[2 * i + 1], v % 16);
  }

  /** Whatever spelling is used, the bytes that are spelled are the address. */
  lemma {:induction false} AddressRead(text: string, a: seq<byte>)
    requires Spells(text, a)
    ensures HexToAddress(text) == a
  {
    if SpellsBare(text, a) {
      BareRead(text, a);
    } else {
      BareRead(text[2..], a);
    }
  }

  /** Shorter byte strings are padded on the left, longer ones lose their front. */
  lemma {:induction false} AddressOfBytes(b: seq<byte>)
    ensures HexToAddress("0x" + HexEncode(b)) == AbiWords.Fit20(b)
  {
    PrefixSkipped(HexEncode(b));
    HexReadBack(b);
  }

  lemma {:induction false} PrefixSkipped(bare: string)
    requires |bare| % 2 == 0
    ensures HexToAddress("0x" + bare) == AbiWords.Fit20(HexRead(bare))
  {
    var s := "0x" + bare;
    assert s[0] == '0' && s[1] == 'x' && s[2..] == bare;
  }

  function Calldata(text: string): (r: Option<seq<byte>>) {
    if text == "" then Some([]) else HexDecode(Trim0x(text))
  }

  /** Fee cap and tip; old records only have a gas price, which serves as both. */
  function Fees(p: Params): (r: Option<(int, int)>) {
    if p.maxFee != "" then
      var cap, tip := ParseDecimal(p.maxFee), ParseDecimal(p.tip);
      if cap.Some? && tip.Some? then Some((cap.value, tip.value)) else None
    else
      var price := ParseDecimal(p.gasPrice);
      if price.Some? then Some((price.value, price.value)) else None
  }

  /** ETHSigningHash: the transaction a retry signs. */
  function ToSign(p: Params): (r: Option<Tx>) {
    var chain, value, fees, data := ParseDecimal(p.chainId), ParseDecimal(p.value), Fees(p), Calldata(p.data);
    if chain.None? || value.None? || fees.None? || data.None? then None
    else
      Some(Tx(chain.value, p.nonce, fees.value.1, fees.value.0, p.gasLimit, HexToAddress(p.to), value.value, data.value))
  }

  /** AssembleAndBroadcastETH: the transaction the signature is attached to, checked in its own order. */
  function ToBroadcast(p: Params, signature: seq<byte>): (r: Option<Tx>) {
    if |signature| < 64 then None
    else
      var chainId := ParseDecimal(p.chainId);
      if chainId.None? then None
      else
        var value := ParseDecimal(p.value);
        if value.None? then None
        else
          var fees := Fees(p);
          if fees.None? then None
          else
            var (cap, tip) := fees.value;
            var data := Calldata(p.data);
            if data.None? then None
            else Some(Tx(chainId.value, p.nonce, tip, cap, p.gasLimit, HexToAddress(p.to), value.value, data.value))
  }

  /** A full-length signature is attached to the transaction the stored text stands for; a shorter one
      to nothing. */
  lemma {:induction false} SignedIsBroadcast(p: Params, signature: seq<byte>)
    ensures |signature| >= 64 ==> ToBroadcast(p, signature) == ToSign(p)
    ensures |signature| < 64 ==> ToBroadcast(p, signature) == None
  {
  }

  // ----- asking the node -----

  /** The chain id is asked for once per process. */
  datatype ChainAnswer = Cached(id: nat) | Asked(answer: Option<string>)

  /** A node's answers while building; None is a failed call.  A block without a base fee answers "". */
  datatype Node = Node(
    nonce: Option<string>, tip: Option<string>, baseFee: Option<string>, chain: ChainAnswer, gas: Option<string>)

  datatype ChainParams = ChainParams(nonce: nat, maxFee: int, tip: int, chainId: nat)

  const TWO64 := 0x1_0000_0000_0000_0000
  const MIN_TIP := 1_000_000
  const TRANSFER_GAS := 21_000

  /** big.Int.Uint64: the low 64 bits of the magnitude. */
  function Low64(n: int): (r: nat)
    ensures r < TWO64
    ensures 0 <= n < TWO64 ==> r == n
    ensures -TWO64 < n < 0 ==> r == -n
  {
    (if n < 0 then -n else n) % TWO64
  }

  function HexAnswer(a: Option<string>): (r: Option<int>) { if a.None? then None else ParseHex(Trim0x(a.value)) }

  function FetchNonce(a: Option<string>): (r: Option<nat>) {
    var n := HexAnswer(a);
    if n.None? then None else Some(Low64(n.value))
  }

  function BaseFee(n: Node): (r: Option<int>) { if n.baseFee == Some("") then Some(0) else HexAnswer(n.baseFee) }

  function ChainId(a: ChainAnswer): (r: Option<nat>) {
    match a
    case Cached(id) => Some(id)
    case Asked(answer) =>
      var n := HexAnswer(answer);
      if n.None? || n.value < 0 || n.value >= TWO64 then None else Some(n.value)
  }

  /** The fee formula: the tip has a floor, the cap is twice the base fee plus the tip.  The cap
      covers the tip exactly when the base fee is not negative. */
  function FreshFees(baseFee: int, suggested: int): (r: (int, int))
    ensures r.1 >= MIN_TIP && r.1 >= suggested
    ensures r.1 <= r.0 <==> baseFee >= 0
  {
    var tip := if suggested < MIN_TIP then MIN_TIP else suggested;
    (baseFee * 2 + tip, tip)
  }

  /** fetchETHChainParams. */
  function Fetch(n: Node): (r: Option<ChainParams>)
    ensures r.Some? ==> BaseFee(n).Some? && r.value.tip >= MIN_TIP
    ensures r.Some? ==> (r.value.tip <= r.value.maxFee <==> BaseFee(n).value >= 0)
  {
    var nonce, tip, base, chain := FetchNonce(n.nonce), HexAnswer(n.tip), BaseFee(n), ChainId(n.chain);
    if nonce.None? || tip.None? || base.None? || chain.None? then None
    else
      var (cap, floored) := FreshFees(base.value, tip.value);
      Some(ChainParams(nonce.value, cap, floored, chain.value))
  }

  // ----- the builders -----

  /** buildDynamicTx. */
  function DynamicTx(cp: ChainParams, to: seq<byte>, value: int, gas: nat, data: seq<byte>): (t: Tx) {
    Tx(cp.chainId, cp.nonce, cp.tip, cp.maxFee, gas, to, value, data)
  }

  /** What all builders store of the node's answers; the request is stored as the given text. */
  function Record(cp: ChainParams, from: string, to: string, value: string, gas: nat, data: string): (p: Params) {
    Params(cp.nonce, Show(cp.maxFee), Show(cp.tip), gas, Show(cp.chainId), from, to, value, data, "")
  }

  /** What a caller asks to be sent. */
  datatype Order =
    | Pay(from: string, to: string, wei: int)
    | Call(from: string, to: string, data: seq<byte>, value: int)

  /** BuildETHTx. */
  function BuildPay(n: Node, from: string, to: string, wei: int): (r: Option<Built>) {
    var cp := Fetch(n);
    if wei <= 0 || cp.None? then None
    else
      var tx := DynamicTx(cp.value, HexToAddress(to), wei, TRANSFER_GAS, []);
      Some(Built(tx, Record(cp.value, from, to, Show(wei), TRANSFER_GAS, "")))
  }

  /** The node's gas estimate plus a fifth. */
  function GasLimit(estimate: int): (g: nat) { Low64(estimate * 120 / 100) }

  /** BuildETHContractCallTx. */
  function BuildCall(n: Node, from: string, contract: string, data: seq<byte>, value: int): (r: Option<Built>) {
    var cp, estimate := Fetch(n), HexAnswer(n.gas);
    if cp.None? || estimate.None? then None
    else
      var gas := GasLimit(estimate.value);
      var tx := DynamicTx(cp.value, HexToAddress(contract), value, gas, data);
      Some(Built(tx, Record(cp.value, from, contract, Show(value), gas, HexEncode(data))))
  }

  function Build(n: Node, o: Order): (r: Option<Built>) {
    match o
    case Pay(from, to, wei) => BuildPay(n, from, to, wei)
    case Call(from, to, data, value) => BuildCall(n, from, to, data, value)
  }

  /** RebuildETHTx: the request is read back from its text and stored again as the same text. */
  function Rebuild(n: Node, p: Params): (r: Option<Built>) {
    var cp, value, data := Fetch(n), ParseDecimal(p.value), Calldata(p.data);
    if cp.None? || value.None? || data.None? then None
    else
      var tx := DynamicTx(cp.value, HexToAddress(p.to), value.value, p.gasLimit, data.value);
      Some(Built(tx, Record(cp.value, p.from, p.to, p.value, p.gasLimit, p.data)))
  }

  // ----- what is signed is what is broadcast -----

  /** The stored text stands for the hashed transaction, on whichever path it is read. */
  ghost predicate Sound(b: Built) {
    && ToSign(b.params) == Some(b.tx)
    && forall signature {:trigger ToBroadcast(b.params, signature)} ::
      |signature| >= 64 ==> ToBroadcast(b.params, signature) == Some(b.tx)
  }

  lemma {:induction false} RecordRead(cp: ChainParams, from: string, to: string, value: string, gas: nat, data: string,
                                      v: int, d: seq<byte>)
    requires ParseDecimal(value) == Some(v) && Calldata(data) == Some(d)
    ensures Sound(Built(DynamicTx(cp, HexToAddress(to), v, gas, d), Record(cp, from, to, value, gas, data)))
  {
    var p, tx := Record(cp, from, to, value, gas, data), DynamicTx(cp, HexToAddress(to), v, gas, d);
    ParseShow(cp.maxFee);
    ParseShow(cp.tip);
    ParseShow(cp.chainId);
    assert Fees(p) == Some((cp.maxFee, cp.tip));
    ReadableIsSound(Built(tx, p));
  }

  lemma {:induction false} ReadableIsSound(b: Built)
    requires ToSign(b.params) == Some(b.tx)
    ensures Sound(b)
  {
    forall signature: seq<byte> | |signature| >= 64 ensures ToBroadcast(b.params, signature) == Some(b.tx) {
      SignedIsBroadcast(b.params, signature);
    }
  }

  /** The direct path: for every request and all answers of the node, the broadcast recovers from
      the stored text exactly the transaction whose hash was given to the signer. */
  lemma {:induction false} BuiltIsBroadcast(n: Node, o: Order)
    requires Build(n, o).Some?
    ensures Sound(Build(n, o).value)
  {
    var cp := Fetch(n).value;
    match o
    case Pay(from, to, wei) =>
      ParseShow(wei);
      RecordRead(cp, from, to, Show(wei), TRANSFER_GAS, "", wei, []);
    case Call(from, to, data, value) =>
      ParseShow(value);
      HexBack(data);
      RecordRead(cp, from, to, Show(value), GasLimit(HexAnswer(n.gas).value), HexEncode(data), value, data);
  }

  /** The approval path: the same after a refresh, for all stored parameters, old ones included. */
  lemma {:induction false} RebuiltIsBroadcast(n: Node, p: Params)
    requires Rebuild(n, p).Some?
    ensures Sound(Rebuild(n, p).value)
  {
    RecordRead(Fetch(n).value, p.from, p.to, p.value, p.gasLimit, p.data, ParseDecimal(p.value).value, Calldata(p.data).value);
  }

  // ----- what the transaction asks for -----

  /** The transaction does what was ordered, for the address the order spells. */
  ghost predicate Carries(o: Order, t: Tx) {
    && (forall a :: Spells(o.to, a) ==> t.to == a)
    && (match o
        case Pay(_, _, wei) => t.value == wei && t.data == [] && t.gas == 21_000
        case Call(_, _, data, value) => t.value == value && t.data == data)
  }

  /** Recipient, value, data and gas. */
  predicate SameRequest(t: Tx, u: Tx) { t.to == u.to && t.value == u.value && t.data == u.data && t.gas == u.gas }

  lemma {:induction false} BuiltCarries(n: Node, o: Order)
    requires Build(n, o).Some?
    ensures Carries(o, Build(n, o).value.tx)
  {
    forall a | Spells(o.to, a) ensures HexToAddress(o.to) == a {
      AddressRead(o.to, a);
    }
  }

  /** A refresh works exactly when the node answers and the stored request can be read, and then
      keeps recipient, value, data and gas of the approved record. */
  lemma {:induction false} RebuildKeeps(n: Node, p: Params)
    ensures Rebuild(n, p).Some? <==> Fetch(n).Some? && ParseDecimal(p.value).Some? && Calldata(p.data).Some?
    ensures Rebuild(n, p).Some? && ToSign(p).Some? ==> SameRequest(Rebuild(n, p).value.tx, ToSign(p).value)
    ensures Rebuild(n, p).Some? ==>
      var q := Rebuild(n, p).value.params;
      q.from == p.from && q.to == p.to && q.value == p.value && q.data == p.data && q.gasLimit == p.gasLimit
  {
  }

  /** From order to approval: whatever the node answered when the request was stored and whatever
      it answers when it is approved, what is signed then carries the order. */
  lemma {:induction false} ApprovedCarriesOrder(before: Node, now: Node, o: Order)
    requires Build(before, o).Some? && Rebuild(now, Build(before, o).value.params).Some?
    ensures
      var stored, refreshed := Build(before, o).value, Rebuild(now, Build(before, o).value.params).value;
      Carries(o, refreshed.tx) && SameRequest(refreshed.tx, stored.tx) && Sound(refreshed)
  {
    BuiltIsBroadcast(before, o);
    BuiltCarries(before, o);
    RebuildKeeps(now, Build(before, o).value.params);
    RebuiltIsBroadcast(now, Build(before, o).value.params);
  }

  // ----- fees -----

  predicate FeesOrdered(t: Tx) { 0 <= t.tip <= t.maxFee }

  /** The cap covers the tip, as the Specification section of EIP-1559 requires, if and only if the
      base fee the node reported is not negative; built and rebuilt alike. */
  lemma {:induction false} FeesOrderedIff(n: Node, o: Order, p: Params)
    ensures Build(n, o).Some? ==> (FeesOrdered(Build(n, o).value.tx) <==> BaseFee(n).value >= 0)
    ensures Rebuild(n, p).Some? ==> (FeesOrdered(Rebuild(n, p).value.tx) <==> BaseFee(n).value >= 0)
  {
  }

  // ----- answers that spell numbers -----

  /** A node's usual spelling of a number. */
  predicate Says(answer: Option<string>, n: nat) { answer == Some("0x" + HexText(n)) }

  lemma {:induction false} SaidIsRead(answer: Option<string>, n: nat)
    requires Says(answer, n)
    ensures HexAnswer(answer) == Some(n)
  {
    ParseHexText(n);
  }

  /** From the numbers the node spells: the transaction has that nonce and chain id, the larger of
      the suggested tip and a milli-gwei, and twice the base fee on top of it. */
  lemma {:induction false} FetchedNumbers(n: Node, nonce: nat, tip: nat, base: nat, chain: nat)
    requires Says(n.nonce, nonce) && Says(n.tip, tip) && Says(n.baseFee, base)
    requires n.chain == Cached(chain) || (n.chain.Asked? && Says(n.chain.answer, chain))
    requires nonce < 0x1_0000_0000_0000_0000 && chain < 0x1_0000_0000_0000_0000
    ensures Fetch(n).Some?
    ensures Fetch(n).value.nonce == nonce && Fetch(n).value.chainId == chain
    ensures Fetch(n).value.tip == if tip < 1_000_000 then 1_000_000 else tip
    ensures Fetch(n).value.maxFee == 2 * base + Fetch(n).value.tip
  {
    SaidIsRead(n.nonce, nonce);
    SaidIsRead(n.tip, tip);
    BaseFeeSaid(n, base);
    ChainSaid(n.chain, chain);
    FetchedFrom(n, nonce, tip, base, chain);
  }

  lemma {:induction false} BaseFeeSaid(n: Node, base: nat)
    requires Says(n.baseFee, base)
    ensures BaseFee(n) == Some(base)
  {
    SaidIsRead(n.baseFee, base);
  }

  lemma {:induction false} ChainSaid(a: ChainAnswer, chain: nat)
    requires a == Cached(chain) || (a.Asked? && Says(a.answer, chain))
    requires chain < 0x1_0000_0000_0000_0000
    ensures ChainId(a) == Some(chain)
  {
    if a.Asked? {
      SaidIsRead(a.answer, chain);
    }
  }

  /** A block without a base fee counts as one of zero. */
  lemma {:induction false} WithoutBaseFee(n: Node, nonce: nat, tip: nat, chain: nat)
    requires Says(n.nonce, nonce) && Says(n.tip, tip) && n.baseFee == Some("")
    requires n.chain == Cached(chain) || (n.chain.Asked? && Says(n.chain.answer, chain))
    requires nonce < 0x1_0000_0000_0000_0000 && chain < 0x1_0000_0000_0000_0000
    ensures Fetch(n).Some?
    ensures Fetch(n).value.maxFee == Fetch(n).value.tip == if tip < 1_000_000 then 1_000_000 else tip
  {
    SaidIsRead(n.nonce, nonce);
    SaidIsRead(n.tip, tip);
    ChainSaid(n.chain, chain);
    FetchedFrom(n, nonce, tip, 0, chain);
  }

  lemma {:induction false} FetchedFrom(n: Node, nonce: nat, tip: nat, base: nat, chain: nat)
    requires HexAnswer(n.nonce) == Some(nonce) && HexAnswer(n.tip) == Some(tip)
    requires BaseFee(n) == Some(base) && ChainId(n.chain) == Some(chain) && nonce < 0x1_0000_0000_0000_0000
    ensures Fetch(n) ==
      var floored := if tip < 1_000_000 then 1_000_000 else tip;
      Some(ChainParams(nonce, 2 * base + floored, floored, chain))
  {
  }

  /** Both builders and the refresh put the fetched numbers into the transaction that is signed. */
  lemma {:induction false} TxHasFetched(n: Node, o: Order, p: Params)
    ensures Build(n, o).Some? ==> Fetch(n).Some? && HasFetched(Build(n, o).value.tx, Fetch(n).value)
    ensures Rebuild(n, p).Some? ==> Fetch(n).Some? && HasFetched(Rebuild(n, p).value.tx, Fetch(n).value)
  {
  }

  predicate HasFetched(t: Tx, cp: ChainParams) {
    t.nonce == cp.nonce && t.chainId == cp.chainId && t.tip == cp.tip && t.maxFee == cp.maxFee
  }

  /** The node spells every number it is asked for. */
  predicate Answers(n: Node, nonce: nat, tip: nat, base: nat, chain: nat) {
    && Says(n.nonce, nonce) && Says(n.tip, tip) && Says(n.baseFee, base)
    && (n.chain == Cached(chain) || (n.chain.Asked? && Says(n.chain.answer, chain)))
    && nonce < 0x1_0000_0000_0000_0000 && chain < 0x1_0000_0000_0000_0000
  }

  /** With a node that answers, exactly the payments of nothing or less are refused. */
  lemma {:induction false} PositivePaymentsBuilt(n: Node, from: string, to: string, wei: int, nonce: nat, tip: nat, base: nat, chain: nat)
    requires Answers(n, nonce, tip, base, chain)
    ensures Build(n, Pay(from, to, wei)).Some? <==> wei > 0
  {
    FetchedNumbers(n, nonce, tip, base, chain);
  }

  /** With a node that answers, a call is built exactly when there is a gas estimate. */
  lemma {:induction false} EstimatedCallsBuilt(
      n: Node, from: string, to: string, data: seq<byte>, value: int, nonce: nat, tip: nat, base: nat, chain: nat)
    requires Answers(n, nonce, tip, base, chain)
    ensures Build(n, Call(from, to, data, value)).Some? <==> HexAnswer(n.gas).Some?
  {
    FetchedNumbers(n, nonce, tip, base, chain);
  }

  /** A node that fails to answer one question stops both builders and the refresh. */
  lemma {:induction false} SilentNode(n: Node, o: Order, p: Params)
    requires n.nonce == None || n.tip == None || n.baseFee == None || n.chain == Asked(None)
    ensures Build(n, o) == None && Rebuild(n, p) == None
  {
  }

  /** A call gets the node's estimate plus a fifth, rounded down. */
  lemma {:induction false} GasPlusFifth(n: Node, from: string, to: string, data: seq<byte>, value: int, estimate: nat)
    requires Build(n, Call(from, to, data, value)).Some? && Says(n.gas, estimate)
    requires estimate < 0xd555_5555_5555_5555
    ensures var gas := Build(n, Call(from, to, data, value)).value.tx.gas;
      5 * gas <= 6 * estimate < 5 * (gas + 1)
  {
    SaidIsRead(n.gas, estimate);
  }

  // ----- old and prefixed records -----

  /** A record from before there were two fees is read with its gas price as both. */
  lemma {:induction false} LegacyRead(p: Params, chain: int, value: int, price: int)
    requires p.maxFee == "" && p.gasPrice == Show(price) && p.chainId == Show(chain) && p.value == Show(value)
    requires p.data == ""
    ensures ToSign(p) == Some(Tx(chain, p.nonce, price, price, p.gasLimit, HexToAddress(p.to), value, []))
  {
    ParseShow(price);
    ParseShow(chain);
    ParseShow(value);
  }

  /** A record that has both fees is read with them, whatever gas price it has. */
  lemma {:induction false} NewFeesFirst(p: Params, cap: int, tip: int)
    requires ParseDecimal(p.maxFee) == Some(cap) && ParseDecimal(p.tip) == Some(tip) && ToSign(p).Some?
    ensures ToSign(p).value.maxFee == cap && ToSign(p).value.tip == tip
  {
  }

  /** Stored calldata may carry a prefix. */
  lemma {:induction false} PrefixedData(data: seq<byte>)
    ensures Calldata("0x" + HexEncode(data)) == Some(data)
  {
    HexBack(data);
    TrimPrefix(HexEncode(data));
  }

  // ----- an odd answer -----

  lemma {:induction false} ReadMinusOne()
    ensures HexAnswer(Some("-1")) == Some(-1)
  {
    HexDigitExactly('1', 1);
    var one := "1";
    var ds := seq(|one|, i requires 0 <= i < |one| => HexDigit(one[i]));
    assert ds[..0] == [];
    assert Value(ds[..0], 16) == 0;
    assert "-1"[1..] == one;
  }

  const ODD_NODE := Node(Some("0x0"), Some("0x0"), Some("-1"), Cached(1), None)

  /** The signed hex parser lets "-1" through as a base fee, and the cap falls below the tip. */
  lemma {:induction false} NegativeBaseFee()
    ensures Build(ODD_NODE, Pay("", "", 1)).Some?
    ensures !FeesOrdered(Build(ODD_NODE, Pay("", "", 1)).value.tx)
  {
    assert "0x" + HexText(0) == "0x0";
    SaidIsRead(Some("0x0"), 0);
    ReadMinusOne();
  }
}
