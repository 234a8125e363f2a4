/** How an approved Solana transaction is refreshed, signed and broadcast (handler/approval.go,
    handler/wallet.go, chain/tx_sol.go).

    Stored parameters are one JSON object without a type tag.  Two dispatchers guess the type from
    the fields that are present, each in its own way: one rebuilds the message that is signed, the
    other recomputes the message that is broadcast.  A message is represented by what it is built
    from, so equal messages here are equal bytes there. */
module SolanaDispatch {
  import opened Options

  /** The parameter records of the four builders. */
  datatype Params =
    | Native(from: string, to: string, lamports: nat, blockhash: string)
    | Token(from: string, to: string, mint: string, amount: nat, decimals: int, blockhash: string)
    | Program(from: string, programId: string, accounts: seq<string>, data: string, blockhash: string)
    | Wrap(from: string, lamports: nat, blockhash: string, wrap: bool)

  /** A stored object: every field any record has; an absent field reads as its zero value. */
  datatype Json = Json(
    from: string, to: string, mint: string, programId: string, accounts: seq<string>, data: string,
    amount: nat, decimals: int, lamports: nat, wrap: bool, blockhash: string)

  const EMPTY := Json("", "", "", "", [], "", 0, 0, 0, false, "")

  function Marshal(p: Params): (j: Json) {
    match p
    case Native(from, to, lamports, hash) => EMPTY.(from := from, to := to, lamports := lamports, blockhash := hash)
    case Token(from, to, mint, amount, decimals, hash) =>
      EMPTY.(from := from, to := to, mint := mint, amount := amount, decimals := decimals, blockhash := hash)
    case Program(from, id, accounts, data, hash) =>
      EMPTY.(from := from, programId := id, accounts := accounts, data := data, blockhash := hash)
    case Wrap(from, lamports, hash, wrap) => EMPTY.(from := from, lamports := lamports, blockhash := hash, wrap := wrap)
  }

  function AsNative(j: Json): Params { Native(j.from, j.to, j.lamports, j.blockhash) }

  function AsToken(j: Json): Params { Token(j.from, j.to, j.mint, j.amount, j.decimals, j.blockhash) }

  function AsProgram(j: Json): Params { Program(j.from, j.programId, j.accounts, j.data, j.blockhash) }

  function AsWrap(j: Json): Params { Wrap(j.from, j.lamports, j.blockhash, j.wrap) }

  /** What the builders let through: addresses and blockhash decode to 32 bytes and so are not
      empty, and a transfer or a wrap moves at least one lamport. */
  predicate Built(p: Params) {
    && p.from != "" && p.blockhash != ""
    && match p
       case Native(_, to, lamports, _) => to != "" && lamports > 0
       case Token(_, to, mint, _, _, _) => to != "" && mint != ""
       case Program(_, id, _, _, _) => id != ""
       case Wrap(_, lamports, _, wrap) => wrap <==> lamports > 0
  }

  // ----- the two dispatchers -----

  /** Approve: which record is rebuilt. */
  function RebuildAs(j: Json): (p: Params) {
    if j.mint != "" then AsToken(j)
    else if j.programId != "" then AsProgram(j)
    else if j.blockhash != "" && (j.wrap || j.lamports == 0) then AsWrap(j)
    else AsNative(j)
  }

  /** broadcastSigned: which record is assembled. */
  function BroadcastAs(j: Json): (p: Params) {
    if j.mint != "" then AsToken(j)
    else if j.programId != "" then AsProgram(j)
    else if j.from != "" && j.blockhash != "" && j.to == "" then AsWrap(j)
    else AsNative(j)
  }

  /** On any object at all, the dispatchers agree exactly when the test for a wrap by amount and
      the test by missing recipient give the same answer. */
  lemma {:induction false} DispatchersAgree(j: Json)
    ensures RebuildAs(j) == BroadcastAs(j) <==>
      (j.mint == "" && j.programId == "" && j.blockhash != "" ==>
        ((j.wrap || j.lamports == 0) <==> (j.from != "" && j.to == "")))
  {
  }

  /** On what a builder stored, both find the record that was stored. */
  lemma {:induction false} BuiltIsFound(p: Params)
    requires Built(p)
    ensures RebuildAs(Marshal(p)) == p && BroadcastAs(Marshal(p)) == p
  {
    match p
    case Native(_, _, _, _) =>
    case Token(_, _, _, _, _, _) =>
    case Program(_, _, _, _, _) =>
    case Wrap(_, _, _, _) =>
  }

  // ----- approving -----

  /** Answers during a rebuild: a fresh blockhash unless the node fails, and for a native transfer
      the amount after its trip through floating point. */
  datatype Chain = Chain(blockhash: Option<string>, rounded: nat)

  /** Rebuilding one record; every path refuses an empty blockhash and a zero amount. */
  function Rebuilt(p: Params, c: Chain): (r: Option<Params>)
    ensures Built(p) && r.Some? ==> Built(r.value)
  {
    if c.blockhash.None? || c.blockhash.value == "" then None
    else
      match p
      case Native(from, to, _, _) =>
        if c.rounded == 0 then None else Some(Native(from, to, c.rounded, c.blockhash.value))
      case Token(from, to, mint, amount, decimals, _) =>
        Some(Token(from, to, mint, amount, decimals, c.blockhash.value))
      case Program(from, id, accounts, data, _) => Some(Program(from, id, accounts, data, c.blockhash.value))
      case Wrap(from, lamports, _, wrap) =>
        if !wrap then Some(Wrap(from, 0, c.blockhash.value, false))
        else if lamports == 0 then None
        else Some(Wrap(from, lamports, c.blockhash.value, true))
  }

  /** Same transaction up to its blockhash and, for a native transfer, the rounding. */
  predicate SameRequest(p: Params, q: Params) {
    match p
    case Native(from, to, _, _) => q.Native? && q.from == from && q.to == to
    case Token(from, to, mint, amount, decimals, _) => q == Token(from, to, mint, amount, decimals, q.blockhash)
    case Program(from, id, accounts, data, _) => q == Program(from, id, accounts, data, q.blockhash)
    case Wrap(from, lamports, _, wrap) => q == Wrap(from, lamports, q.blockhash, wrap)
  }

  /** The Solana branch of Approve: nested attempts to read the object; a rebuild that fails keeps
      the stored message and parameters.  `signed` is what the signer gets and `used` what the
      broadcast starts from: they are the same transaction, and the one that was approved. */
  method Refresh(stored: Params, c: Chain) returns (signed: Params, used: Json)
    requires Built(stored)
    ensures BroadcastAs(used) == signed
    ensures SameRequest(stored, signed)
    ensures c.blockhash.Some? && c.blockhash.value != "" && (stored.Native? ==> c.rounded > 0) ==>
      signed.blockhash == c.blockhash.value && (stored.Native? ==> signed.lamports == c.rounded)
    ensures c.blockhash.None? || c.blockhash.value == "" || (stored.Native? && c.rounded == 0) ==> signed == stored
  {
    var json := Marshal(stored);
    BuiltIsFound(stored);
    signed, used := stored, json;
    var rebuilt: Option<Params>;
    if json.mint != "" {
      rebuilt := Rebuilt(AsToken(json), c);
    } else if json.programId != "" {
      rebuilt := Rebuilt(AsProgram(json), c);
    } else if json.blockhash != "" && (json.wrap || json.lamports == 0) {
      rebuilt := Rebuilt(AsWrap(json), c);
    } else {
      rebuilt := Rebuilt(AsNative(json), c);
    }
    if rebuilt.Some? {
      BuiltIsFound(rebuilt.value);
      signed, used := rebuilt.value, Marshal(rebuilt.value);
    }
  }
}
