/** The Solana messages that are written out by hand for native transfers and for unwrapping
    (chain/tx_sol.go), against the general compiler of SolanaMessage.

    Both have three fixed key slots.  They are the compiler's output exactly when the three keys
    are different; a repeated key is something only the compiler merges. */
module SolanaTransfer {
  import opened Options
  import opened Sequences
  import opened Numerals
  import opened AccountOrder
  import opened SolanaMessage
  import Base58

  // ----- little-endian numbers -----

  function LittleEndian(n: nat, width: nat): (b: seq<byte>)
    ensures |b| == width
  {
    if width == 0 then [] else [n % 256] + LittleEndian(n / 256, width - 1)
  }

  function ReadLittleEndian(b: seq<byte>): (n: nat) {
    if b == [] then 0 else b[0] + 256 * ReadLittleEndian(b[1..])
  }

  lemma {:induction false} LittleEndianBack(n: nat, width: nat)
    requires n < Power(256, width)
    ensures ReadLittleEndian(LittleEndian(n, width)) == n
  {
    if width > 0 {
      LittleEndianBack(n / 256, width - 1);
      assert LittleEndian(n, width)[1..] == LittleEndian(n / 256, width - 1);
    }
  }

  // ----- the hand-written messages -----

  /** The layout they share: payer, one writable account, program. */
  function Layout3(payer: seq<byte>, other: seq<byte>, program: seq<byte>, hash: seq<byte>, ins: seq<byte>): (b: seq<byte>) {
    [1, 0, 1] + CompactU16(3) + (payer + other + program) + hash + CompactU16(1) + ins
  }

  function ThreeKeys(payer: string, other: string, program: string, hash: string, indices: seq<byte>, data: seq<byte>)
      : (b: seq<byte>)
    requires ValidKey(payer) && ValidKey(other) && ValidKey(program) && ValidKey(hash)
    requires |indices| <= 0xFFFF && |data| <= 0xFFFF
  {
    Layout3(KeyBytes(payer), KeyBytes(other), KeyBytes(program), KeyBytes(hash), Instruction(2, indices, data))
  }

  function SystemKey(): (b: seq<byte>)
    ensures |b| == 32
  {
    seq(32, _ => 0)
  }

  /** The system program: thirty-two zero bytes. */
  function SystemAddress(): (s: string)
    ensures ValidKey(s) && KeyBytes(s) == SystemKey()
  {
    Base58.DecodeEncode(SystemKey());
    Base58.Encoded(SystemKey())
  }

  function TransferData(lamports: nat): (d: seq<byte>)
    ensures |d| == 12
  {
    [2, 0, 0, 0] + LittleEndian(lamports, 8)
  }

  /** The appends both builders make, one field after the other. */
  method Write(payer: seq<byte>, other: seq<byte>, program: seq<byte>, hash: seq<byte>, indices: seq<byte>, data: seq<byte>)
      returns (msg: seq<byte>)
    requires |indices| <= 0xFFFF && |data| <= 0xFFFF
    ensures msg == Layout3(payer, other, program, hash, Instruction(2, indices, data))
  {
    msg := [1, 0, 1];
    msg := msg + CompactU16(3);
    msg := msg + payer;
    msg := msg + other;
    msg := msg + program;
    msg := msg + hash;
    msg := msg + CompactU16(1);
    ghost var head := msg;
    msg := msg + [2];
    msg := msg + CompactU16(|indices|);
    msg := msg + indices;
    msg := msg + CompactU16(|data|);
    msg := msg + data;
    GroupedTail(head, [2], CompactU16(|indices|), indices, CompactU16(|data|), data);
  }

  lemma {:induction false} GroupedTail(a: seq<byte>, b: seq<byte>, c: seq<byte>, d: seq<byte>, e: seq<byte>, f: seq<byte>)
    ensures a + b + c + d + e + f == a + (b + c + d + e + f)
  {
  }

  /** A transfer by the system program, carrying the given instruction data. */
  function Transfer(system: string, from: string, to: string, hash: string, data: seq<byte>): (b: Build)
    requires ValidKey(system) && |data| == 12
  {
    if ValidKey(from) && ValidKey(to) && ValidKey(hash)
    then Message(ThreeKeys(from, to, system, hash, [0, 1], data))
    else Rejected
  }

  /** buildSOLMessage. */
  method TransferMessage(from: string, to: string, hash: string, lamports: nat) returns (b: Build)
    ensures b == Transfer(SystemAddress(), from, to, hash, TransferData(lamports))
  {
    var fromOk := CheckKey(from);
    var toOk := CheckKey(to);
    var hashOk := CheckKey(hash);
    if !fromOk || !toOk || !hashOk {
      return Rejected;
    }
    var data := TransferData(lamports);
    var msg := Write(KeyBytes(from), KeyBytes(to), SystemKey(), KeyBytes(hash), [0, 1], data);
    return Message(msg);
  }

  function Unwrap(owner: string, account: string, token: string, hash: string): (b: Build)
    requires ValidKey(account) && ValidKey(token)
  {
    if ValidKey(owner) && ValidKey(hash) then Message(ThreeKeys(owner, account, token, hash, [1, 0, 0], [9])) else Rejected
  }

  /** buildSOLUnwrapMessage; `account` is the token account, if it can be derived, and `token` the
      token program. */
  method UnwrapMessage(owner: string, account: Option<string>, token: string, hash: string) returns (b: Build)
    requires (account.Some? ==> ValidKey(account.value)) && ValidKey(token)
    ensures b == if account.None? then Rejected else Unwrap(owner, account.value, token, hash)
  {
    if account.None? {
      return Rejected;
    }
    var ownerOk := CheckKey(owner);
    var hashOk := CheckKey(hash);
    if !ownerOk || !hashOk {
      return Rejected;
    }
    var msg := Write(KeyBytes(owner), KeyBytes(account.value), KeyBytes(token), KeyBytes(hash), [1, 0, 0], [9]);
    return Message(msg);
  }

  // ----- what the compiler makes of the same request -----

  function TransferRequest(system: string, from: string, to: string, hash: string, data: seq<byte>): (r: Request) {
    Request(from, system, [AccountMeta(from, true, true), AccountMeta(to, false, true)], data, hash)
  }

  function UnwrapRequest(owner: string, account: string, token: string, hash: string): (r: Request) {
    var accounts := [AccountMeta(account, false, true), AccountMeta(owner, false, true), AccountMeta(owner, true, false)];
    Request(owner, token, accounts, [9], hash)
  }

  /** Requests that mention the payer, one other writable account and the program, nothing else. */
  ghost predicate TwoParty(r: Request, k: string) {
    && (forall i :: 0 <= i < |r.accounts| ==> r.accounts[i].pubkey == r.from || r.accounts[i] == AccountMeta(k, false, true))
    && (exists i :: 0 <= i < |r.accounts| && r.accounts[i] == AccountMeta(k, false, true))
  }

  predicate Different(a: string, b: string, c: string) { a != b && b != c && a != c }

  lemma {:induction false} TwoPartyKeys(r: Request, k: string)
    requires TwoParty(r, k)
    ensures Keys(Mentions(r)) == {r.from, k, r.program}
  {
    var ms := Mentions(r);
    Mentioned(r);
    assert ms[0].pubkey == r.from;
    forall i | 0 <= i < |ms| ensures ms[i].pubkey in {r.from, k, r.program} {
      if 0 < i < |ms| - 1 {
        assert ms[i] == r.accounts[i - 1];
      }
    }
  }

  lemma {:induction false} TwoPartyFlags(r: Request, k: string)
    requires TwoParty(r, k) && Different(r.from, k, r.program)
    ensures !SignerIn(Mentions(r), k) && WritableIn(Mentions(r), k)
    ensures !SignerIn(Mentions(r), r.program) && !WritableIn(Mentions(r), r.program)
  {
    var ms := Mentions(r);
    forall i | 0 <= i < |ms| && ms[i].pubkey == k ensures ms[i] == AccountMeta(k, false, true) {
      assert ms[i] == r.accounts[i - 1];
    }
    forall i | 0 < i < |ms| - 1 ensures ms[i].pubkey != r.program {
      assert ms[i] == r.accounts[i - 1];
    }
    var j :| 0 <= j < |r.accounts| && r.accounts[j] == AccountMeta(k, false, true);
    assert ms[j + 1] == r.accounts[j];
  }

  function Slots(from: string, k: string, program: string): (o: seq<AccountMeta>) {
    [AccountMeta(from, true, true), AccountMeta(k, false, true), AccountMeta(program, false, false)]
  }

  lemma {:induction false} TwoPartyLayout(r: Request, k: string)
    requires TwoParty(r, k) && Different(r.from, k, r.program)
    ensures Layout(r) == Slots(r.from, k, r.program)
  {
    var o, ms := Layout(r), Mentions(r);
    LayoutSummarises(r);
    TwoPartyKeys(r, k);
    TwoPartyFlags(r, k);
    DistinctCount(o);
    assert |o| == 3;
    Mentioned(r);
    assert SignerIn(ms, r.from) && WritableIn(ms, r.from);
    assert o[0].pubkey in Keys(o) && o[1].pubkey in Keys(o) && o[2].pubkey in Keys(o);
    assert o[1].pubkey == k;
  }

  lemma {:induction false} SlotPicks(a: AccountMeta, b: AccountMeta, c: AccountMeta)
    requires Group(a) == 0 && Group(b) == 2 && Group(c) == 3
    ensures Header([a, b, c]) == [1, 0, 1]
  {
    SlotPick(a, b, c, 0);
    SlotPick(a, b, c, 1);
    SlotPick(a, b, c, 3);
    assert |Pick([a, b, c], 0)| == 1 && |Pick([a, b, c], 1)| == 0 && |Pick([a, b, c], 3)| == 1;
  }

  function Member(a: AccountMeta, g: nat): nat { if Group(a) == g then 1 else 0 }

  lemma {:induction false} PickOne(a: AccountMeta, g: nat)
    ensures |Pick([a], g)| == Member(a, g)
  {
    assert [a][..0] == [];
  }

  lemma {:induction false} SlotPick(a: AccountMeta, b: AccountMeta, c: AccountMeta, g: nat)
    ensures |Pick([a, b, c], g)| == Member(a, g) + Member(b, g) + Member(c, g)
  {
    assert [a, b, c] == [a] + [b] + [c];
    PickConcat([a] + [b], [c], g);
    PickConcat([a], [b], g);
    PickOne(a, g);
    PickOne(b, g);
    PickOne(c, g);
  }

  lemma {:induction false} SlotIndex(from: string, k: string, program: string)
    requires Different(from, k, program)
    ensures IndexOf(Slots(from, k, program), from) == 0
    ensures IndexOf(Slots(from, k, program), k) == 1
    ensures IndexOf(Slots(from, k, program), program) == 2
  {
    var o := Slots(from, k, program);
    assert o[1..] == [o[1], o[2]] && [o[1], o[2]][1..] == [o[2]];
  }

  lemma {:induction false} FlattenThree(a: seq<byte>, b: seq<byte>, c: seq<byte>)
    ensures Flatten([a, b, c]) == a + b + c
  {
    assert [a, b, c][..2] == [a, b] && [a, b][..1] == [a] && [a][..0] == [];
    assert Flatten([a]) == a;
    assert Flatten([a, b]) == a + b;
  }

  lemma {:induction false} KeyTableThree(a: AccountMeta, b: AccountMeta, c: AccountMeta)
    requires KeysValid([a, b, c]) && ValidKey(a.pubkey) && ValidKey(b.pubkey) && ValidKey(c.pubkey)
    ensures KeyTable([a, b, c]) == [KeyBytes(a.pubkey), KeyBytes(b.pubkey), KeyBytes(c.pubkey)]
  {
  }

  /** Different keys: the compiler's message is the hand-written one. */
  lemma {:induction false} Compiled(r: Request, k: string, indices: seq<byte>)
    requires TwoParty(r, k) && Different(r.from, k, r.program) && ValidRequest(r) && ValidKey(k)
    requires |r.accounts| <= 0xFFFF && |r.data| <= 0xFFFF
    requires indices == Indices(Slots(r.from, k, r.program), r.accounts)
    ensures Compile(r) == Message(ThreeKeys(r.from, k, r.program, r.blockhash, indices, r.data))
  {
    var o := Slots(r.from, k, r.program);
    TwoPartyLayout(r, k);
    LayoutValid(r);
    SlotPicks(o[0], o[1], o[2]);
    SlotIndex(r.from, k, r.program);
    KeyTableThree(o[0], o[1], o[2]);
    FlattenThree(KeyBytes(r.from), KeyBytes(k), KeyBytes(r.program));
  }

  lemma {:induction false} SerializedLength(r: Request, o: seq<AccountMeta>)
    requires ValidRequest(r) && KeysValid(o) && Encodable(r, o) && |o| <= 127
    ensures |Serialized(r, o)| == 37 + 32 * |o| + |Instruction(0, Indices(o, r.accounts), r.data)|
  {
    ChunksBack(KeyTable(o), []);
  }

  lemma {:induction false} FewKeys(r: Request, k: string)
    requires TwoParty(r, k) && !Different(r.from, k, r.program)
    ensures |Layout(r)| <= 2
  {
    LayoutCounts(r);
    TwoPartyKeys(r, k);
    assert {r.from, k, r.program} == {r.from, k} || {r.from, k, r.program} == {r.from, r.program};
  }

  /** A repeated key: the compiler's message is shorter. */
  lemma {:induction false} CompiledShorter(r: Request, k: string, indices: seq<byte>)
    requires TwoParty(r, k) && !Different(r.from, k, r.program) && ValidRequest(r) && ValidKey(k)
    requires |indices| == |r.accounts| <= 0xFFFF && |r.data| <= 0xFFFF
    ensures Compile(r) != Message(ThreeKeys(r.from, k, r.program, r.blockhash, indices, r.data))
  {
    FewKeys(r, k);
    LayoutValid(r);
    SerializedLength(r, Layout(r));
  }

  lemma {:induction false} CompiledIff(r: Request, k: string, indices: seq<byte>)
    requires TwoParty(r, k) && ValidRequest(r) && ValidKey(k)
    requires |indices| == |r.accounts| <= 0xFFFF && |r.data| <= 0xFFFF
    requires Different(r.from, k, r.program) ==> indices == Indices(Slots(r.from, k, r.program), r.accounts)
    ensures Compile(r) == Message(ThreeKeys(r.from, k, r.program, r.blockhash, indices, r.data))
      <==> Different(r.from, k, r.program)
  {
    if Different(r.from, k, r.program) {
      Compiled(r, k, indices);
    } else {
      CompiledShorter(r, k, indices);
    }
  }

  lemma {:induction false} TransferIndices(system: string, from: string, to: string, hash: string, data: seq<byte>)
    ensures TwoParty(TransferRequest(system, from, to, hash, data), to)
    ensures Different(from, to, system) ==>
      Indices(Slots(from, to, system), TransferRequest(system, from, to, hash, data).accounts) == [0, 1]
  {
    var r := TransferRequest(system, from, to, hash, data);
    assert r.accounts[1] == AccountMeta(to, false, true) && r.accounts[0].pubkey == from;
    if Different(from, to, system) {
      SlotIndex(from, to, system);
    }
  }

  /** The native transfer message is the compiler's, for the same inputs and with the same
      rejections, if and only if sender, recipient and system program are three different keys. */
  lemma {:induction false} TransferAgrees(system: string, from: string, to: string, hash: string, data: seq<byte>)
    requires ValidKey(system) && |data| == 12
    ensures
      Transfer(system, from, to, hash, data) == Compile(TransferRequest(system, from, to, hash, data))
      <==> (ValidKey(from) && ValidKey(to) && ValidKey(hash) ==> Different(from, to, system))
  {
    var r := TransferRequest(system, from, to, hash, data);
    TransferIndices(system, from, to, hash, data);
    assert ValidRequest(r) <==> ValidKey(from) && ValidKey(to) && ValidKey(hash) by {
      assert r.accounts[1].pubkey == to;
    }
    if ValidRequest(r) {
      CompiledIff(r, to, [0, 1]);
    }
  }

  lemma {:induction false} UnwrapIndices(owner: string, account: string, token: string, hash: string)
    ensures TwoParty(UnwrapRequest(owner, account, token, hash), account)
    ensures Different(owner, account, token) ==>
      Indices(Slots(owner, account, token), UnwrapRequest(owner, account, token, hash).accounts) == [1, 0, 0]
  {
    var r := UnwrapRequest(owner, account, token, hash);
    assert r.accounts[0] == AccountMeta(account, false, true);
    assert r.accounts[1].pubkey == owner && r.accounts[2].pubkey == owner;
    if Different(owner, account, token) {
      SlotIndex(owner, account, token);
    }
  }

  /** The same for unwrapping. */
  lemma {:induction false} UnwrapAgrees(owner: string, account: string, token: string, hash: string)
    requires ValidKey(account) && ValidKey(token)
    ensures
      Unwrap(owner, account, token, hash) == Compile(UnwrapRequest(owner, account, token, hash))
      <==> (ValidKey(owner) && ValidKey(hash) ==> Different(owner, account, token))
  {
    var r := UnwrapRequest(owner, account, token, hash);
    UnwrapIndices(owner, account, token, hash);
    assert ValidRequest(r) <==> ValidKey(owner) && ValidKey(hash);
    if ValidRequest(r) {
      CompiledIff(r, account, [1, 0, 0]);
    }
  }

  /** A node that reads the message sees exactly that request. */
  ghost predicate ReadsAs(b: Build, r: Request) {
    && b.Message? && ValidRequest(r) && Parse(b.bytes).Some?
    && Faithful(Parse(b.bytes).value, r)
  }

  /** A node that reads a transfer between different accounts sees exactly that request. */
  lemma {:induction false} TransferRead(system: string, from: string, to: string, hash: string, data: seq<byte>)
    requires ValidKey(system) && ValidKey(from) && ValidKey(to) && ValidKey(hash) && Different(from, to, system) && |data| == 12
    ensures ReadsAs(Transfer(system, from, to, hash, data),
      Request(from, system, [AccountMeta(from, true, true), AccountMeta(to, false, true)], data, hash))
  {
    var r := TransferRequest(system, from, to, hash, data);
    TransferAgrees(system, from, to, hash, data);
    TransferIndices(system, from, to, hash, data);
    FewAccounts(r, to);
    CompiledFaithfully(r);
  }

  /** A reader of an unwrap message sees the token program asked to close the token account: refund to
      the owner, signed by the owner. */
  lemma {:induction false} UnwrapRead(owner: string, account: string, token: string, hash: string)
    requires ValidKey(owner) && ValidKey(account) && ValidKey(token) && ValidKey(hash) && Different(owner, account, token)
    ensures ReadsAs(Unwrap(owner, account, token, hash), Request(owner, token,
      [AccountMeta(account, false, true), AccountMeta(owner, false, true), AccountMeta(owner, true, false)], [9], hash))
  {
    var r := UnwrapRequest(owner, account, token, hash);
    UnwrapAgrees(owner, account, token, hash);
    UnwrapIndices(owner, account, token, hash);
    FewAccounts(r, account);
    CompiledFaithfully(r);
  }

  /** The instruction data spells out the amount, for every 64-bit amount. */
  lemma {:induction false} AmountRead(lamports: nat)
    requires lamports < Power(256, 8)
    ensures TransferData(lamports)[..4] == [2, 0, 0, 0]
    ensures ReadLittleEndian(TransferData(lamports)[4..]) == lamports
  {
    LittleEndianBack(lamports, 8);
    assert TransferData(lamports)[4..] == LittleEndian(lamports, 8);
  }

  lemma {:induction false} FewAccounts(r: Request, k: string)
    requires TwoParty(r, k)
    ensures AccountCount(r) <= 3 && SignerCount(r) <= 3
  {
    TwoPartyKeys(r, k);
    LayoutCounts(r);
    OrderedLength(Layout(r));
  }
}
