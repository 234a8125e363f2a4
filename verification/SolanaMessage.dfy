/** Solana legacy messages for one program instruction (chain/tx_sol.go).

    `BuildMessage` is the compiler: merge duplicate accounts, order them, count the header, index
    the instruction and append everything to one buffer.  `Parse` is an independent reader of the
    legacy format.  The main result says exactly when the reader gets back what was asked for. */
module SolanaMessage {
  import opened Options
  import opened Sequences
  import opened Numerals
  import opened AccountOrder
  import Base58

  /** What the caller asks for. */
  datatype Request = Request(
    from: string,
    program: string,
    accounts: seq<AccountMeta>,
    data: seq<byte>,
    blockhash: string)

  /** `Rejected` is an error return; `Panicked` is the range panic of the length prefix. */
  datatype Build = Message(bytes: seq<byte>) | Rejected | Panicked

  // ----- keys -----

  predicate ValidKey(s: string) {
    Base58.Decoded(s).Some? && |Base58.Decoded(s).value| == 32
  }

  function KeyBytes(s: string): (b: seq<byte>)
    requires ValidKey(s)
    ensures |b| == 32
  {
    Base58.Decoded(s).value
  }

  /** Different addresses are different keys. */
  lemma {:induction false} KeysDiffer(s: string, t: string)
    requires ValidKey(s) && ValidKey(t) && s != t
    ensures KeyBytes(s) != KeyBytes(t)
  {
    if KeyBytes(s) == KeyBytes(t) {
      Base58.DecodeInjective(s, t);
    }
  }

  predicate ValidRequest(r: Request) {
    && ValidKey(r.from) && ValidKey(r.program) && ValidKey(r.blockhash)
    && forall i :: 0 <= i < |r.accounts| ==> ValidKey(r.accounts[i].pubkey)
  }

  // ----- length prefixes -----

  function CompactU16(v: nat): (b: seq<byte>)
    requires v <= 0xFFFF
  {
    if v <= 0x7f then [v]
    else if v <= 0x3fff then [v % 128 + 128, v / 128]
    else [v % 128 + 128, v / 128 % 128 + 128, v / 16384]
  }

  /** Reads one length prefix: the number and the bytes after it. */
  function ReadU16(b: seq<byte>): (r: Option<(nat, seq<byte>)>) {
    if |b| < 1 then None
    else
      var x: int := b[0];
      if x < 128 then Some((x, b[1..]))
      else if |b| < 2 then None
      else
        var y: int := b[1];
        if y < 128 then Some((x - 128 + 128 * y, b[2..]))
        else if |b| < 3 || b[2] > 3 then None
        else
          var z: int := b[2];
          Some((x - 128 + 128 * (y - 128) + 16384 * z, b[3..]))
  }

  lemma {:induction false} ReadCompact(v: nat, rest: seq<byte>)
    requires v <= 0xFFFF
    ensures ReadU16(CompactU16(v) + rest) == Some((v, rest))
  {
    var c := CompactU16(v);
    var b := c + rest;
    assert b[|c|..] == rest;
    assert forall i :: 0 <= i < |c| ==> b[i] == c[i];
  }

  /** Reads a length-prefixed byte string and returns what follows it. */
  function ReadBytes(b: seq<byte>): (r: Option<(seq<byte>, seq<byte>)>) {
    var n := ReadU16(b);
    if n.None? || |n.value.1| < n.value.0 then None
    else Some((n.value.1[..n.value.0], n.value.1[n.value.0..]))
  }

  lemma {:induction false} ReadBytesBack(x: seq<byte>, rest: seq<byte>)
    requires |x| <= 0xFFFF
    ensures ReadBytes(CompactU16(|x|) + (x + rest)) == Some((x, rest))
  {
    ReadCompact(|x|, x + rest);
    assert (x + rest)[..|x|] == x && (x + rest)[|x|..] == rest;
  }

  // ----- merging duplicates -----

  function Keys(s: seq<AccountMeta>): (ks: set<string>) {
    set i | 0 <= i < |s| :: s[i].pubkey
  }

  ghost predicate Distinct(s: seq<AccountMeta>) {
    forall i, j :: 0 <= i < j < |s| ==> s[i].pubkey != s[j].pubkey
  }

  /** Position of a key; the length when it is absent. */
  function IndexOf(s: seq<AccountMeta>, k: string): (i: nat)
    ensures i <= |s|
    ensures i < |s| ==> s[i].pubkey == k
    ensures i == |s| ==> k !in Keys(s)
    ensures forall j :: 0 <= j < i ==> s[j].pubkey != k
  {
    if s == [] then 0 else if s[0].pubkey == k then 0 else 1 + IndexOf(s[1..], k)
  }

  /** Adds one mention: or the flags into an existing entry, or append a new one. */
  function Merge(s: seq<AccountMeta>, a: AccountMeta): (r: seq<AccountMeta>) {
    var i := IndexOf(s, a.pubkey);
    if i < |s| then
      s[i := AccountMeta(a.pubkey, s[i].isSigner || a.isSigner, s[i].isWritable || a.isWritable)]
    else s + [a]
  }

  function MergeAll(s: seq<AccountMeta>, mentions: seq<AccountMeta>): (r: seq<AccountMeta>) {
    if mentions == [] then s
    else Merge(MergeAll(s, mentions[..|mentions| - 1]), mentions[|mentions| - 1])
  }

  /** Every mention of a key: the fee payer, the instruction's accounts, the program. */
  function Mentions(r: Request): (s: seq<AccountMeta>) {
    [AccountMeta(r.from, true, true)] + r.accounts + [AccountMeta(r.program, false, false)]
  }

  function Collected(r: Request): (s: seq<AccountMeta>) {
    MergeAll([], Mentions(r))
  }

  ghost predicate SignerIn(mentions: seq<AccountMeta>, k: string) {
    exists i :: 0 <= i < |mentions| && mentions[i].pubkey == k && mentions[i].isSigner
  }

  ghost predicate WritableIn(mentions: seq<AccountMeta>, k: string) {
    exists i :: 0 <= i < |mentions| && mentions[i].pubkey == k && mentions[i].isWritable
  }

  /** `s` lists each mentioned key once, with its flags or-ed over all mentions. */
  ghost predicate Summarises(s: seq<AccountMeta>, mentions: seq<AccountMeta>) {
    && Distinct(s)
    && Keys(s) == Keys(mentions)
    && (mentions != [] ==> s != [] && s[0].pubkey == mentions[0].pubkey)
    && (forall i :: 0 <= i < |s| ==> s[i].isSigner == SignerIn(mentions, s[i].pubkey))
    && (forall i :: 0 <= i < |s| ==> s[i].isWritable == WritableIn(mentions, s[i].pubkey))
  }

  lemma {:induction false} FlagsExtend(mentions: seq<AccountMeta>, a: AccountMeta, k: string)
    ensures SignerIn(mentions + [a], k) == (SignerIn(mentions, k) || (a.pubkey == k && a.isSigner))
    ensures WritableIn(mentions + [a], k) == (WritableIn(mentions, k) || (a.pubkey == k && a.isWritable))
  {
    var all := mentions + [a];
    assert all[|mentions|] == a;
    assert forall i :: 0 <= i < |mentions| ==> all[i] == mentions[i];
  }

  lemma {:induction false} UnmentionedFlags(mentions: seq<AccountMeta>, k: string)
    requires k !in Keys(mentions)
    ensures !SignerIn(mentions, k) && !WritableIn(mentions, k)
  {
  }

  lemma {:induction false} KeysExtend(s: seq<AccountMeta>, a: AccountMeta)
    ensures Keys(s + [a]) == Keys(s) + {a.pubkey}
  {
    var all := s + [a];
    assert all[|s|] == a;
    assert forall i :: 0 <= i < |s| ==> all[i] == s[i];
  }

  lemma {:induction false} KeysUpdate(s: seq<AccountMeta>, i: nat, a: AccountMeta)
    requires i < |s| && s[i].pubkey == a.pubkey
    ensures Keys(s[i := a]) == Keys(s)
  {
    var t := s[i := a];
    assert forall j :: 0 <= j < |s| ==> t[j].pubkey == s[j].pubkey;
  }

  lemma {:induction false} MergeSummarises(s: seq<AccountMeta>, mentions: seq<AccountMeta>, a: AccountMeta)
    requires Summarises(s, mentions)
    ensures Summarises(Merge(s, a), mentions + [a])
  {
    var r, all := Merge(s, a), mentions + [a];
    var p := IndexOf(s, a.pubkey);
    KeysExtend(mentions, a);
    assert s != [] ==> s[0].pubkey in Keys(s);
    if p < |s| {
      KeysUpdate(s, p, r[p]);
    } else {
      KeysExtend(s, a);
      UnmentionedFlags(mentions, a.pubkey);
    }
    forall i | 0 <= i < |r|
      ensures r[i].isSigner == SignerIn(all, r[i].pubkey) && r[i].isWritable == WritableIn(all, r[i].pubkey)
    {
      FlagsExtend(mentions, a, r[i].pubkey);
    }
    assert all[0] == if mentions == [] then a else mentions[0];
  }

  lemma {:induction false} MergeAllSummarises(mentions: seq<AccountMeta>)
    ensures Summarises(MergeAll([], mentions), mentions)
  {
    if mentions != [] {
      var init, a := mentions[..|mentions| - 1], mentions[|mentions| - 1];
      MergeAllSummarises(init);
      MergeSummarises(MergeAll([], init), init, a);
      assert mentions == init + [a];
    }
  }

  // ----- ordering keeps the accounts -----

  lemma {:induction false} InPick(s: seq<AccountMeta>, g: nat, a: AccountMeta)
    ensures a in Pick(s, g) <==> a in s && Group(a) == g
  {
    if s != [] {
      var init := s[..|s| - 1];
      InPick(init, g, a);
      assert a in s <==> a in init || a == s[|s| - 1];
    }
  }

  lemma {:induction false} InOrdered(s: seq<AccountMeta>, a: AccountMeta)
    ensures a in Ordered(s) <==> a in s
  {
    InPick(s, 0, a);
    InPick(s, 1, a);
    InPick(s, 2, a);
    InPick(s, 3, a);
  }

  lemma {:induction false} OrderedLength(s: seq<AccountMeta>)
    ensures |Ordered(s)| == |s|
  {
    if s != [] {
      OrderedLength(s[..|s| - 1]);
    }
  }

  lemma {:induction false} PickGroup(s: seq<AccountMeta>, g: nat)
    ensures forall i :: 0 <= i < |Pick(s, g)| ==> Group(Pick(s, g)[i]) == g
  {
    forall i | 0 <= i < |Pick(s, g)| ensures Group(Pick(s, g)[i]) == g {
      InPick(s, g, Pick(s, g)[i]);
    }
  }

  lemma {:induction false} OrderedIsSorted(s: seq<AccountMeta>)
    ensures Sorted(Ordered(s))
  {
    PickGroup(s, 0);
    PickGroup(s, 1);
    PickGroup(s, 2);
    PickGroup(s, 3);
  }

  /** The first account of group 0 stays first. */
  lemma {:induction false} PickHead(s: seq<AccountMeta>, g: nat)
    requires s != [] && Group(s[0]) == g
    ensures Pick(s, g) != [] && Pick(s, g)[0] == s[0]
  {
    if |s| > 1 {
      PickHead(s[..|s| - 1], g);
    }
  }

  lemma {:induction false} InKeys(s: seq<AccountMeta>, k: string)
    ensures k in Keys(s) <==> exists a :: a in s && a.pubkey == k
  {
    if a :| a in s && a.pubkey == k {
      var i :| 0 <= i < |s| && s[i] == a;
    }
    if k in Keys(s) {
      var i :| 0 <= i < |s| && s[i].pubkey == k;
      assert s[i] in s;
    }
  }

  lemma {:induction false} OrderedKeys(s: seq<AccountMeta>)
    ensures Keys(Ordered(s)) == Keys(s)
  {
    forall k ensures k in Keys(Ordered(s)) <==> k in Keys(s) {
      InKeys(s, k);
      InKeys(Ordered(s), k);
      forall a ensures a in Ordered(s) <==> a in s {
        InOrdered(s, a);
      }
    }
  }

  /** No key twice means as many keys as entries. */
  lemma {:induction false} DistinctCount(s: seq<AccountMeta>)
    ensures |Keys(s)| <= |s|
    ensures Distinct(s) <==> |Keys(s)| == |s|
  {
    if s != [] {
      var init, a := s[..|s| - 1], s[|s| - 1];
      DistinctCount(init);
      assert s == init + [a];
      KeysExtend(init, a);
      assert Distinct(s) <==> Distinct(init) && a.pubkey !in Keys(init);
    }
  }

  lemma {:induction false} OrderedDistinct(s: seq<AccountMeta>)
    requires Distinct(s)
    ensures Distinct(Ordered(s))
  {
    DistinctCount(s);
    DistinctCount(Ordered(s));
    OrderedKeys(s);
    OrderedLength(s);
  }

  lemma {:induction false} OrderedSummarises(s: seq<AccountMeta>, mentions: seq<AccountMeta>)
    requires Summarises(s, mentions)
    requires mentions != [] && mentions[0].isSigner && mentions[0].isWritable
    ensures Summarises(Ordered(s), mentions)
  {
    var o := Ordered(s);
    OrderedDistinct(s);
    OrderedKeys(s);
    PickHead(s, 0);
    forall i | 0 <= i < |o|
      ensures o[i].isSigner == SignerIn(mentions, o[i].pubkey) && o[i].isWritable == WritableIn(mentions, o[i].pubkey)
    {
      InOrdered(s, o[i]);
      var j :| 0 <= j < |s| && s[j] == o[i];
    }
  }

  // ----- the message and its reader -----

  function Layout(r: Request): (o: seq<AccountMeta>) {
    Ordered(Collected(r))
  }

  predicate KeysValid(o: seq<AccountMeta>) {
    forall i :: 0 <= i < |o| ==> ValidKey(o[i].pubkey)
  }

  function KeyTable(o: seq<AccountMeta>): (ks: seq<seq<byte>>)
    requires KeysValid(o)
    ensures |ks| == |o|
    ensures forall i :: 0 <= i < |ks| ==> |ks[i]| == 32
  {
    seq(|o|, i requires 0 <= i < |o| => KeyBytes(o[i].pubkey))
  }

  /** Indices are truncated to one byte, as the source's byte conversion does. */
  function Indices(o: seq<AccountMeta>, accounts: seq<AccountMeta>): (ix: seq<byte>)
    ensures |ix| == |accounts|
  {
    seq(|accounts|, i requires 0 <= i < |accounts| => IndexOf(o, accounts[i].pubkey) % 256)
  }

  function Signers(o: seq<AccountMeta>): nat { |Pick(o, 0)| + |Pick(o, 1)| }

  function Header(o: seq<AccountMeta>): (h: seq<byte>) {
    [Signers(o) % 256, |Pick(o, 1)| % 256, |Pick(o, 3)| % 256]
  }

  function Instruction(program: byte, indices: seq<byte>, data: seq<byte>): (b: seq<byte>)
    requires |indices| <= 0xFFFF && |data| <= 0xFFFF
  {
    [program] + CompactU16(|indices|) + indices + CompactU16(|data|) + data
  }

  predicate Encodable(r: Request, o: seq<AccountMeta>) {
    |o| <= 0xFFFF && |r.accounts| <= 0xFFFF && |r.data| <= 0xFFFF
  }

  function Serialized(r: Request, o: seq<AccountMeta>): (b: seq<byte>)
    requires ValidRequest(r) && KeysValid(o) && Encodable(r, o)
  {
    Header(o) + CompactU16(|o|) + Flatten(KeyTable(o)) + KeyBytes(r.blockhash) + CompactU16(1)
    + Instruction(IndexOf(o, r.program) % 256, Indices(o, r.accounts), r.data)
  }

  lemma {:induction false} LayoutSummarises(r: Request)
    ensures Summarises(Layout(r), Mentions(r)) && Sorted(Layout(r))
  {
    MergeAllSummarises(Mentions(r));
    OrderedSummarises(Collected(r), Mentions(r));
    OrderedIsSorted(Collected(r));
  }

  lemma {:induction false} MentionsValid(r: Request)
    requires ValidRequest(r)
    ensures forall i :: 0 <= i < |Mentions(r)| ==> ValidKey(Mentions(r)[i].pubkey)
  {
  }

  lemma {:induction false} LayoutValid(r: Request)
    requires ValidRequest(r)
    ensures KeysValid(Layout(r))
  {
    LayoutSummarises(r);
    MentionsValid(r);
    var o := Layout(r);
    forall i | 0 <= i < |o| ensures ValidKey(o[i].pubkey) {
      assert o[i].pubkey in Keys(o);
    }
  }

  /** The whole compiler as a function of the request. */
  function Compile(r: Request): (b: Build) {
    if !ValidRequest(r) then Rejected
    else
      LayoutValid(r);
      if !Encodable(r, Layout(r)) then Panicked else Message(Serialized(r, Layout(r)))
  }

  datatype Parsed = Parsed(
    signers: nat,
    readonlySigned: nat,
    readonlyUnsigned: nat,
    keys: seq<seq<byte>>,
    blockhash: seq<byte>,
    program: nat,
    indices: seq<byte>,
    data: seq<byte>)

  /** Cuts `n` 32-byte keys off the front. */
  function Chunks(b: seq<byte>, n: nat): (ks: seq<seq<byte>>)
    requires |b| >= 32 * n
  {
    if n == 0 then [] else [b[..32]] + Chunks(b[32..], n - 1)
  }

  /** One instruction up to the end of the message: program index, account indices, data. */
  function ParseInstruction(b: seq<byte>): (r: Option<(nat, seq<byte>, seq<byte>)>) {
    if |b| < 1 then None
    else
      var list := ReadBytes(b[1..]);
      if list.None? then None
      else
        var data := ReadBytes(list.value.1);
        if data.None? || data.value.1 != [] then None
        else Some((b[0], list.value.0, data.value.0))
  }

  /** Everything after the key table: blockhash, instruction count, the one instruction. */
  function ParseTail(b: seq<byte>): (r: Option<(seq<byte>, nat, seq<byte>, seq<byte>)>) {
    if |b| < 32 then None
    else
      var count := ReadU16(b[32..]);
      if count.None? || count.value.0 != 1 then None
      else
        var ins := ParseInstruction(count.value.1);
        if ins.None? then None else Some((b[..32], ins.value.0, ins.value.1, ins.value.2))
  }

  /** A reader of the legacy message format with exactly one instruction. */
  function Parse(m: seq<byte>): (r: Option<Parsed>) {
    if |m| < 3 then None
    else
      var n := ReadU16(m[3..]);
      if n.None? || |n.value.1| < 32 * n.value.0 then None
      else
        var t := ParseTail(n.value.1[32 * n.value.0..]);
        if t.None? then None
        else Some(Parsed(m[0], m[1], m[2], Chunks(n.value.1, n.value.0), t.value.0, t.value.1, t.value.2, t.value.3))
  }

  lemma {:induction false} ParseInstructionBack(program: byte, indices: seq<byte>, data: seq<byte>)
    requires |indices| <= 0xFFFF && |data| <= 0xFFFF
    ensures ParseInstruction(Instruction(program, indices, data)) == Some((program as nat, indices, data))
  {
    var sized := CompactU16(|data|) + data;
    var body := CompactU16(|indices|) + (indices + sized);
    assert Instruction(program, indices, data) == [program] + body;
    assert Instruction(program, indices, data)[1..] == body;
    ReadBytesBack(indices, sized);
    ReadBytesBack(data, []);
    assert data + [] == data;
  }

  lemma {:induction false} ParseTailBack(hash: seq<byte>, ins: seq<byte>)
    requires |hash| == 32 && ParseInstruction(ins).Some?
    ensures ParseTail(hash + (CompactU16(1) + ins)) ==
      var p := ParseInstruction(ins).value; Some((hash, p.0, p.1, p.2))
  {
    var b := hash + (CompactU16(1) + ins);
    ReadCompact(1, ins);
    assert b[..32] == hash && b[32..] == CompactU16(1) + ins;
  }

  lemma {:induction false} ChunksBack(ks: seq<seq<byte>>, rest: seq<byte>)
    requires forall i :: 0 <= i < |ks| ==> |ks[i]| == 32
    ensures |Flatten(ks)| == 32 * |ks|
    ensures Chunks(Flatten(ks) + rest, |ks|) == ks
  {
    if ks != [] {
      var k, tail := ks[0], ks[1..];
      ChunksBack(tail, rest);
      assert ks == [k] + tail;
      FlattenCons(k, tail);
      var b := Flatten(ks) + rest;
      assert b == k + (Flatten(tail) + rest);
      assert b[..32] == k && b[32..] == Flatten(tail) + rest;
    }
  }

  lemma {:induction false} ParseBack(header: seq<byte>, ks: seq<seq<byte>>, tail: seq<byte>)
    requires |header| == 3 && |ks| <= 0xFFFF
    requires forall i :: 0 <= i < |ks| ==> |ks[i]| == 32
    requires ParseTail(tail).Some?
    ensures Parse(header + (CompactU16(|ks|) + (Flatten(ks) + tail))) == Some(
      var t := ParseTail(tail).value; Parsed(header[0], header[1], header[2], ks, t.0, t.1, t.2, t.3))
  {
    var body := Flatten(ks) + tail;
    var m := header + (CompactU16(|ks|) + body);
    assert m[3..] == CompactU16(|ks|) + body;
    ReadCompact(|ks|, body);
    ChunksBack(ks, tail);
    assert body[32 * |ks|..] == tail;
  }

  lemma {:induction false} ParseSerialized(r: Request, o: seq<AccountMeta>)
    requires ValidRequest(r) && KeysValid(o) && Encodable(r, o)
    ensures Parse(Serialized(r, o)) == Some(Written(r, o))
  {
    var program, indices := IndexOf(o, r.program) % 256, Indices(o, r.accounts);
    var ins := Instruction(program, indices, r.data);
    var hash, ks := KeyBytes(r.blockhash), KeyTable(o);
    ParseInstructionBack(program, indices, r.data);
    ParseTailBack(hash, ins);
    ParseBack(Header(o), ks, hash + (CompactU16(1) + ins));
    Regroup(Header(o), CompactU16(|o|), Flatten(ks), hash, CompactU16(1), ins);
  }

  lemma {:induction false} Regroup(a: seq<byte>, b: seq<byte>, c: seq<byte>, d: seq<byte>, e: seq<byte>, f: seq<byte>)
    ensures a + b + c + d + e + f == a + (b + (c + (d + (e + f))))
  {
  }

  /** Reading a compiled message gives back exactly the pieces that were written. */
  lemma {:induction false} ParseCompiled(r: Request)
    requires Compile(r).Message?
    ensures KeysValid(Layout(r))
    ensures Parse(Compile(r).bytes) == Some(Written(r, Layout(r)))
  {
    LayoutValid(r);
    ParseSerialized(r, Layout(r));
  }

  /** The fields a compiled message carries, one-byte truncation included. */
  function Written(r: Request, o: seq<AccountMeta>): (p: Parsed)
    requires ValidRequest(r) && KeysValid(o)
  {
    Parsed(Signers(o) % 256, |Pick(o, 1)| % 256, |Pick(o, 3)| % 256, KeyTable(o), KeyBytes(r.blockhash),
           IndexOf(o, r.program) % 256, Indices(o, r.accounts), r.data)
  }

  // ----- when the message means what was asked -----

  /** The flags a Solana node derives from the header and the position in the key table. */
  predicate NodeSigner(p: Parsed, i: nat) { i < p.signers }

  predicate NodeWritable(p: Parsed, i: nat) {
    if i < p.signers then i < p.signers - p.readonlySigned else i < |p.keys| - p.readonlyUnsigned
  }

  /** The parsed message asks for exactly what the request says. */
  ghost predicate Faithful(p: Parsed, r: Request)
    requires ValidRequest(r)
  {
    && p.keys != [] && p.keys[0] == KeyBytes(r.from)
    && (forall i, j :: 0 <= i < j < |p.keys| ==> p.keys[i] != p.keys[j])
    && (forall i :: 0 <= i < |p.keys| ==> FlagsFaithful(p, r, i))
    && p.program < |p.keys| && p.keys[p.program] == KeyBytes(r.program)
    && |p.indices| == |r.accounts|
    && (forall i :: 0 <= i < |r.accounts| ==>
         p.indices[i] < |p.keys| && p.keys[p.indices[i]] == KeyBytes(r.accounts[i].pubkey))
    && p.data == r.data && p.blockhash == KeyBytes(r.blockhash)
  }

  /** Key `i` is some mentioned account, and its flags are the or over all its mentions. */
  ghost predicate FlagsFaithful(p: Parsed, r: Request, i: nat)
    requires ValidRequest(r) && i < |p.keys|
  {
    exists k :: k in Keys(Mentions(r)) && ValidKey(k) && KeyBytes(k) == p.keys[i]
      && NodeSigner(p, i) == SignerIn(Mentions(r), k)
      && NodeWritable(p, i) == WritableIn(Mentions(r), k)
  }

  /** Distinct accounts and distinct signing accounts of a request, counted before compiling. */
  function AccountCount(r: Request): nat { |Keys(Mentions(r))| }

  ghost function SignerSet(s: seq<AccountMeta>): set<string> {
    set k | k in Keys(s) && SignerIn(s, k)
  }

  ghost function SignerCount(r: Request): nat { |SignerSet(Mentions(r))| }

  lemma {:induction false} SortedSplit(o: seq<AccountMeta>, i: nat)
    requires Sorted(o) && i < |o|
    ensures |o| == Signers(o) + |Pick(o, 2)| + |Pick(o, 3)|
    ensures o[i].isSigner <==> i < Signers(o)
    ensures o[i].isSigner ==> (o[i].isWritable <==> i < |Pick(o, 0)|)
    ensures !o[i].isSigner ==> (o[i].isWritable <==> i < |o| - |Pick(o, 3)|)
  {
    SortedIsOrdered(o);
    PickGroup(o, 0);
    PickGroup(o, 1);
    PickGroup(o, 2);
    PickGroup(o, 3);
  }

  lemma {:induction false} SignerSetExtend(init: seq<AccountMeta>, a: AccountMeta)
    requires a.pubkey !in Keys(init)
    ensures SignerSet(init + [a]) == if a.isSigner then SignerSet(init) + {a.pubkey} else SignerSet(init)
  {
    KeysExtend(init, a);
    UnmentionedFlags(init, a.pubkey);
    forall k ensures k in SignerSet(init + [a]) <==> k in SignerSet(init) || (k == a.pubkey && a.isSigner) {
      FlagsExtend(init, a, k);
    }
  }

  lemma {:induction false} SignersExtend(init: seq<AccountMeta>, a: AccountMeta)
    ensures Signers(init + [a]) == Signers(init) + (if a.isSigner then 1 else 0)
  {
    assert (init + [a])[..|init|] == init;
  }

  lemma {:induction false} SignersAreCounted(o: seq<AccountMeta>)
    requires Distinct(o)
    ensures Signers(o) == |SignerSet(o)|
  {
    if o == [] {
      assert SignerSet(o) == {};
    } else {
      var init, a := o[..|o| - 1], o[|o| - 1];
      SignersAreCounted(init);
      assert o == init + [a] && a.pubkey !in Keys(init);
      SignerSetExtend(init, a);
      SignersExtend(init, a);
    }
  }

  lemma {:induction false} LayoutCounts(r: Request)
    ensures |Layout(r)| == AccountCount(r)
    ensures Signers(Layout(r)) == SignerCount(r)
  {
    var o, ms := Layout(r), Mentions(r);
    LayoutSummarises(r);
    DistinctCount(o);
    SignersAreCounted(o);
    forall k | k in Keys(o) ensures SignerIn(o, k) == SignerIn(ms, k) {
      var i :| 0 <= i < |o| && o[i].pubkey == k;
      if SignerIn(o, k) {
        var j :| 0 <= j < |o| && o[j].pubkey == k && o[j].isSigner;
        assert j == i;
      }
    }
    assert SignerSet(o) == SignerSet(ms);
  }

  /** What ordering and merging establish about the key table of a request. */
  ghost predicate Table(o: seq<AccountMeta>, r: Request) {
    ValidRequest(r) && KeysValid(o) && Sorted(o) && Summarises(o, Mentions(r))
  }

  lemma {:induction false} Mentioned(r: Request)
    ensures Mentions(r)[0] == AccountMeta(r.from, true, true)
    ensures r.program in Keys(Mentions(r))
    ensures forall i :: 0 <= i < |r.accounts| ==> r.accounts[i].pubkey in Keys(Mentions(r))
  {
    var ms := Mentions(r);
    assert ms[|ms| - 1].pubkey == r.program;
    forall i | 0 <= i < |r.accounts| ensures r.accounts[i].pubkey in Keys(ms) {
      assert ms[i + 1] == r.accounts[i];
    }
  }

  /** The entry found for a mentioned key, when its index fits one byte. */
  lemma {:induction false} Resolves(o: seq<AccountMeta>, k: string)
    requires KeysValid(o) && |o| <= 256 && k in Keys(o)
    ensures ValidKey(k)
    ensures IndexOf(o, k) % 256 < |o| && KeyTable(o)[IndexOf(o, k) % 256] == KeyBytes(k)
  {
    var i := IndexOf(o, k);
    assert i < |o| && o[i].pubkey == k && ValidKey(k);
    OneByte(i);
  }

  lemma {:induction false} OneByte(i: nat)
    requires i < 256
    ensures i % 256 == i
  {
  }

  lemma {:induction false} KeysPairwiseDistinct(o: seq<AccountMeta>, r: Request)
    requires Table(o, r)
    ensures forall i, j :: 0 <= i < j < |o| ==> KeyTable(o)[i] != KeyTable(o)[j]
  {
    forall i, j | 0 <= i < j < |o| ensures KeyTable(o)[i] != KeyTable(o)[j] {
      KeysDiffer(o[i].pubkey, o[j].pubkey);
    }
  }

  lemma {:induction false} PayerFirst(o: seq<AccountMeta>, r: Request)
    requires Table(o, r)
    ensures o != [] && o[0] == AccountMeta(r.from, true, true)
  {
    Mentioned(r);
    assert o[0].pubkey == r.from;
    assert SignerIn(Mentions(r), r.from) && WritableIn(Mentions(r), r.from);
  }

  lemma {:induction false} HeaderFits(o: seq<AccountMeta>)
    requires Sorted(o) && o != [] && o[0].isSigner
    requires |o| <= 256 && Signers(o) <= 255
    ensures Signers(o) % 256 == Signers(o)
    ensures |Pick(o, 1)| % 256 == |Pick(o, 1)|
    ensures |Pick(o, 3)| % 256 == |Pick(o, 3)|
  {
    SortedSplit(o, 0);
    OneByte(Signers(o));
    OneByte(|Pick(o, 1)|);
    OneByte(|Pick(o, 3)|);
  }

  lemma {:induction false} FlagsResolve(o: seq<AccountMeta>, r: Request, i: nat)
    requires Table(o, r) && |o| <= 256 && Signers(o) <= 255 && i < |o|
    ensures FlagsFaithful(Written(r, o), r, i)
  {
    PayerFirst(o, r);
    HeaderFits(o);
    SortedSplit(o, i);
    var k := o[i].pubkey;
    assert k in Keys(o);
  }

  /** Within the one-byte range everything resolves to what the caller asked for. */
  lemma {:induction false} FaithfulWhenSmall(o: seq<AccountMeta>, r: Request)
    requires Table(o, r) && |o| <= 256 && Signers(o) <= 255
    ensures Faithful(Written(r, o), r)
  {
    var p := Written(r, o);
    Mentioned(r);
    PayerFirst(o, r);
    KeysPairwiseDistinct(o, r);
    forall i | 0 <= i < |o| ensures FlagsFaithful(p, r, i) {
      FlagsResolve(o, r, i);
    }
    Resolves(o, r.program);
    forall i | 0 <= i < |r.accounts|
      ensures p.indices[i] < |o| && p.keys[p.indices[i]] == KeyBytes(r.accounts[i].pubkey)
    {
      Resolves(o, r.accounts[i].pubkey);
    }
  }

  /** With 256 signers the header's signer byte is zero, but the fee payer signs. */
  lemma {:induction false} WrappedSigners(o: seq<AccountMeta>, r: Request)
    requires Table(o, r) && Signers(o) == 256
    ensures !FlagsFaithful(Written(r, o), r, 0)
  {
    var p, ms := Written(r, o), Mentions(r);
    PayerFirst(o, r);
    Mentioned(r);
    if FlagsFaithful(p, r, 0) {
      var k :| k in Keys(ms) && ValidKey(k) && KeyBytes(k) == p.keys[0]
        && NodeSigner(p, 0) == SignerIn(ms, k) && NodeWritable(p, 0) == WritableIn(ms, k);
      if k != r.from {
        KeysDiffer(k, r.from);
      }
    }
  }

  lemma {:induction false} IndexOfDistinct(o: seq<AccountMeta>, i: nat)
    requires Distinct(o) && i < |o|
    ensures IndexOf(o, o[i].pubkey) == i
  {
    assert o[i].pubkey in Keys(o);
  }

  /** The account at position 256 is referred to by index 0, the fee payer. */
  lemma {:induction false} WrappedIndex(o: seq<AccountMeta>, r: Request)
    requires Table(o, r) && |o| > 256
    ensures !Faithful(Written(r, o), r)
  {
    var k := o[256].pubkey;
    PayerFirst(o, r);
    IndexOfDistinct(o, 256);
    KeysDiffer(k, r.from);
    assert k in Keys(o);
    if k == r.program {
      WrappedProgram(o, r);
    } else {
      var i := MentionOf(r, k);
      WrappedAccount(o, r, i);
    }
  }

  lemma {:induction false} MentionOf(r: Request, k: string) returns (i: nat)
    requires k in Keys(Mentions(r)) && k != r.from && k != r.program
    ensures i < |r.accounts| && r.accounts[i].pubkey == k
  {
    var ms := Mentions(r);
    var j :| 0 <= j < |ms| && ms[j].pubkey == k;
    i := j - 1;
    assert ms[j] == r.accounts[i];
  }

  lemma {:induction false} WrappedProgram(o: seq<AccountMeta>, r: Request)
    requires ValidRequest(r) && KeysValid(o) && o != []
    requires IndexOf(o, r.program) == 256
    requires KeyBytes(o[0].pubkey) != KeyBytes(r.program)
    ensures !Faithful(Written(r, o), r)
  {
    assert Written(r, o).program == 0;
  }

  lemma {:induction false} WrappedAccount(o: seq<AccountMeta>, r: Request, i: nat)
    requires ValidRequest(r) && KeysValid(o) && o != []
    requires i < |r.accounts| && IndexOf(o, r.accounts[i].pubkey) == 256
    requires KeyBytes(o[0].pubkey) != KeyBytes(r.accounts[i].pubkey)
    ensures !Faithful(Written(r, o), r)
  {
    assert Written(r, o).indices[i] == 0;
  }

  /** A request is rejected exactly when one of its keys is not 32 base-58 bytes; the length prefix
      panics exactly when the distinct accounts, the listed accounts or the data exceed 65535. */
  lemma {:induction false} CompileOutcome(r: Request)
    ensures Compile(r).Rejected? <==>
      !ValidKey(r.from) || !ValidKey(r.program) || !ValidKey(r.blockhash)
      || exists i :: 0 <= i < |r.accounts| && !ValidKey(r.accounts[i].pubkey)
    ensures Compile(r).Panicked? <==>
      ValidRequest(r) && (AccountCount(r) > 65535 || |r.accounts| > 65535 || |r.data| > 65535)
  {
    LayoutCounts(r);
  }

  /** The compiled message means what was asked exactly when there are at most 256 distinct
      accounts and at most 255 distinct signers. */
  lemma {:induction false} CompiledFaithfully(r: Request)
    requires Compile(r).Message?
    ensures Parse(Compile(r).bytes).Some?
    ensures Faithful(Parse(Compile(r).bytes).value, r) <==> AccountCount(r) <= 256 && SignerCount(r) <= 255
  {
    var o := Layout(r);
    ParseCompiled(r);
    LayoutSummarises(r);
    LayoutCounts(r);
    if |o| > 256 {
      WrappedIndex(o, r);
    } else if Signers(o) > 255 {
      PayerFirst(o, r);
      SortedSplit(o, 0);
      WrappedSigners(o, r);
    } else {
      FaithfulWhenSmall(o, r);
    }
  }

  // ----- the compiler's loops -----

  method CheckKey(s: string) returns (ok: bool)
    ensures ok == ValidKey(s)
  {
    var d := Base58.Decode(s);
    ok := d.Some? && |d.value| == 32;
  }

  /** `seen` records where each key of `accts` is. */
  ghost predicate Seen(seen: map<string, nat>, accts: seq<AccountMeta>) {
    && (forall k :: k in seen ==> seen[k] < |accts| && accts[seen[k]].pubkey == k)
    && (forall i :: 0 <= i < |accts| ==> accts[i].pubkey in seen && seen[accts[i].pubkey] == i)
  }

  lemma {:induction false} SeenIndex(seen: map<string, nat>, accts: seq<AccountMeta>, k: string)
    requires Seen(seen, accts)
    ensures k in seen <==> IndexOf(accts, k) < |accts|
    ensures k in seen ==> seen[k] == IndexOf(accts, k)
  {
    if k in seen {
      assert accts[seen[k]].pubkey in Keys(accts);
    }
  }

  /** One mention: a lookup in `seen`, then an update in place or an append. */
  method Mention(seen: map<string, nat>, accts: seq<AccountMeta>, a: AccountMeta)
      returns (seen': map<string, nat>, accts': seq<AccountMeta>)
    requires Seen(seen, accts)
    ensures accts' == Merge(accts, a) && Seen(seen', accts')
    ensures seen'.Keys == seen.Keys + {a.pubkey}
  {
    SeenIndex(seen, accts, a.pubkey);
    if a.pubkey in seen {
      var i := seen[a.pubkey];
      seen' := seen;
      accts' := accts[i := AccountMeta(a.pubkey, accts[i].isSigner || a.isSigner, accts[i].isWritable || a.isWritable)];
    } else {
      seen' := seen[a.pubkey := |accts|];
      accts' := accts + [a];
    }
  }

  predicate AccountsValid(accounts: seq<AccountMeta>) {
    forall i :: 0 <= i < |accounts| ==> ValidKey(accounts[i].pubkey)
  }

  lemma {:induction false} AccountsValidNext(accounts: seq<AccountMeta>, i: nat)
    requires i < |accounts| && AccountsValid(accounts[..i]) && ValidKey(accounts[i].pubkey)
    ensures AccountsValid(accounts[..i + 1])
  {
    var now := accounts[..i + 1];
    forall j | 0 <= j < |now| ensures ValidKey(now[j].pubkey) {
      assert j < i ==> now[j] == accounts[..i][j];
    }
  }

  lemma {:induction false} MergeNext(payer: AccountMeta, accounts: seq<AccountMeta>, i: nat)
    requires i < |accounts|
    ensures MergeAll([], [payer] + accounts[..i + 1]) == Merge(MergeAll([], [payer] + accounts[..i]), accounts[i])
  {
    var all := [payer] + accounts[..i + 1];
    assert all[..|all| - 1] == [payer] + accounts[..i] && all[|all| - 1] == accounts[i];
  }

  /** One instruction account: a key is validated when it is first seen. */
  method Visit(seen: map<string, nat>, accts: seq<AccountMeta>, a: AccountMeta)
      returns (ok: bool, seen': map<string, nat>, accts': seq<AccountMeta>)
    requires Seen(seen, accts) && KeysValid(accts)
    ensures ok == ValidKey(a.pubkey)
    ensures ok ==> accts' == Merge(accts, a) && Seen(seen', accts') && KeysValid(accts')
  {
    ok, seen', accts' := true, seen, accts;
    if a.pubkey !in seen {
      ok := CheckKey(a.pubkey);
    }
    if ok {
      seen', accts' := Mention(seen, accts, a);
      SeenIndex(seen, accts, a.pubkey);
    }
  }

  /** The loop over the instruction's accounts. */
  method CollectAccounts(payer: AccountMeta, accounts: seq<AccountMeta>)
      returns (ok: bool, seen: map<string, nat>, accts: seq<AccountMeta>)
    requires ValidKey(payer.pubkey)
    ensures ok == AccountsValid(accounts)
    ensures ok ==> accts == MergeAll([], [payer] + accounts) && Seen(seen, accts)
  {
    seen := map[payer.pubkey := 0];
    accts := [payer];
    assert [payer][..0] == [] && [payer] + accounts[..0] == [payer];
    for i := 0 to |accounts|
      invariant Seen(seen, accts) && KeysValid(accts)
      invariant accts == MergeAll([], [payer] + accounts[..i])
      invariant AccountsValid(accounts[..i])
    {
      MergeNext(payer, accounts, i);
      ok, seen, accts := Visit(seen, accts, accounts[i]);
      if !ok {
        return;
      }
      AccountsValidNext(accounts, i);
    }
    assert accounts[..|accounts|] == accounts;
    ok := true;
  }

  method Collect(r: Request) returns (ok: bool, accts: seq<AccountMeta>)
    requires ValidKey(r.from) && ValidKey(r.program) && ValidKey(r.blockhash)
    ensures ok == ValidRequest(r)
    ensures ok ==> accts == Collected(r)
  {
    var seen;
    ok, seen, accts := CollectAccounts(AccountMeta(r.from, true, true), r.accounts);
    if ok {
      ghost var ms := Mentions(r);
      assert ms[..|ms| - 1] == [AccountMeta(r.from, true, true)] + r.accounts;
      seen, accts := Mention(seen, accts, AccountMeta(r.program, false, false));
    }
  }

  /** The in-place sort, on a fresh array. */
  method Arrange(accts: seq<AccountMeta>) returns (sorted: seq<AccountMeta>)
    ensures sorted == Ordered(accts)
  {
    var a := new AccountMeta[|accts|](i requires 0 <= i < |accts| => accts[i]);
    assert a[..] == accts;
    SortByGroup(a);
    sorted := a[..];
  }

  method CountHeader(sorted: seq<AccountMeta>) returns (signers: nat, readonlySigned: nat, readonlyUnsigned: nat)
    ensures signers == Signers(sorted)
    ensures readonlySigned == |Pick(sorted, 1)| && readonlyUnsigned == |Pick(sorted, 3)|
  {
    signers, readonlySigned, readonlyUnsigned := 0, 0, 0;
    for i := 0 to |sorted|
      invariant signers == Signers(sorted[..i])
      invariant readonlySigned == |Pick(sorted[..i], 1)| && readonlyUnsigned == |Pick(sorted[..i], 3)|
    {
      assert sorted[..i + 1][..i] == sorted[..i];
      if sorted[i].isSigner {
        signers := signers + 1;
        if !sorted[i].isWritable {
          readonlySigned := readonlySigned + 1;
        }
      } else if !sorted[i].isWritable {
        readonlyUnsigned := readonlyUnsigned + 1;
      }
    }
    assert sorted[..|sorted|] == sorted;
  }

  method IndexMap(sorted: seq<AccountMeta>) returns (index: map<string, nat>)
    requires Distinct(sorted)
    ensures Seen(index, sorted)
  {
    index := map[];
    for i := 0 to |sorted|
      invariant Seen(index, sorted[..i])
    {
      index := index[sorted[i].pubkey := i];
    }
    assert sorted[..|sorted|] == sorted;
  }

  method AppendKeys(sorted: seq<AccountMeta>) returns (bytes: seq<byte>)
    requires KeysValid(sorted)
    ensures bytes == Flatten(KeyTable(sorted))
  {
    bytes := [];
    for i := 0 to |sorted|
      invariant bytes == Flatten(KeyTable(sorted)[..i])
    {
      assert KeyTable(sorted)[..i + 1][..i] == KeyTable(sorted)[..i];
      var pub := Base58.Decode(sorted[i].pubkey);
      bytes := bytes + pub.value;
    }
    assert KeyTable(sorted)[..|sorted|] == KeyTable(sorted);
  }

  method AppendIndices(index: map<string, nat>, ghost sorted: seq<AccountMeta>, accounts: seq<AccountMeta>)
      returns (bytes: seq<byte>)
    requires Seen(index, sorted)
    requires forall i :: 0 <= i < |accounts| ==> accounts[i].pubkey in index
    ensures bytes == Indices(sorted, accounts)
  {
    bytes := [];
    for i := 0 to |accounts|
      invariant |bytes| == i
      invariant forall j :: 0 <= j < i ==> bytes[j] == IndexOf(sorted, accounts[j].pubkey) % 256
    {
      SeenIndex(index, sorted, accounts[i].pubkey);
      bytes := bytes + [index[accounts[i].pubkey] % 256];
    }
  }

  /** Appends header, key table, blockhash and instruction to one buffer. */
  method Append(signers: byte, readonlySigned: byte, readonlyUnsigned: byte, count: nat, keys: seq<byte>, hash: seq<byte>,
                program: byte, indices: seq<byte>, data: seq<byte>) returns (msg: seq<byte>)
    requires count <= 0xFFFF && |indices| <= 0xFFFF && |data| <= 0xFFFF
    ensures msg == [signers, readonlySigned, readonlyUnsigned] + CompactU16(count) + keys + hash + CompactU16(1) + Instruction(program, indices, data)
  {
    msg := [signers, readonlySigned, readonlyUnsigned];
    msg := msg + CompactU16(count);
    msg := msg + keys;
    msg := msg + hash;
    msg := msg + CompactU16(1);
    ghost var front := msg;
    msg := msg + [program];
    msg := msg + CompactU16(|indices|);
    msg := msg + indices;
    msg := msg + CompactU16(|data|);
    msg := msg + data;
    assert msg == front + Instruction(program, indices, data);
  }

  /** The message of an ordered account list. */
  method Assemble(r: Request, sorted: seq<AccountMeta>) returns (b: Build)
    requires ValidRequest(r) && KeysValid(sorted) && Distinct(sorted)
    requires r.program in Keys(sorted)
    requires forall i :: 0 <= i < |r.accounts| ==> r.accounts[i].pubkey in Keys(sorted)
    ensures b == if Encodable(r, sorted) then Message(Serialized(r, sorted)) else Panicked
  {
    var index := IndexMap(sorted);
    forall k | k in Keys(sorted) ensures k in index {
      SeenIndex(index, sorted, k);
    }
    SeenIndex(index, sorted, r.program);
    var signers, readonlySigned, readonlyUnsigned := CountHeader(sorted);
    if |sorted| > 0xFFFF || |r.accounts| > 0xFFFF || |r.data| > 0xFFFF {
      return Panicked;
    }
    var keys := AppendKeys(sorted);
    var indices := AppendIndices(index, sorted, r.accounts);
    var hash := Base58.Decode(r.blockhash);
    var program := index[r.program] % 256;
    var msg := Append(signers % 256, readonlySigned % 256, readonlyUnsigned % 256, |sorted|,
                      keys, hash.value, program, indices, r.data);
    assert msg == Serialized(r, sorted);
    b := Message(msg);
  }

  /** buildSOLProgramCallMessage. */
  method BuildMessage(r: Request) returns (b: Build)
    ensures b == Compile(r)
  {
    var fromOk := CheckKey(r.from);
    if !fromOk { return Rejected; }
    var programOk := CheckKey(r.program);
    if !programOk { return Rejected; }
    var hashOk := CheckKey(r.blockhash);
    if !hashOk { return Rejected; }
    var ok, accts := Collect(r);
    if !ok { return Rejected; }
    LayoutValid(r);
    LayoutSummarises(r);
    Mentioned(r);
    var sorted := Arrange(accts);
    b := Assemble(r, sorted);
  }
}
