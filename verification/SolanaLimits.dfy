/** A request that compiles to a message meaning something else (chain/tx_sol.go): with 256
    different signers the one-byte signer count of the header wraps to zero. */
module SolanaLimits {
  import opened Sequences
  import opened Numerals
  import opened AccountOrder
  import opened SolanaMessage
  import Base58

  function NumberedKey(i: byte): (b: seq<byte>)
    ensures |b| == 32 && b[0] == i
  {
    [i] + seq(31, _ => 7)
  }

  function Address(i: byte): (s: string)
    ensures ValidKey(s) && KeyBytes(s) == NumberedKey(i)
  {
    Base58.DecodeEncode(NumberedKey(i));
    Base58.Encoded(NumberedKey(i))
  }

  function Crowd(n: nat): (s: seq<AccountMeta>)
    requires n <= 256
    ensures |s| == n
    ensures forall i :: 0 <= i < n ==> s[i] == AccountMeta(Address(i), true, false)
  {
    seq(n, i requires 0 <= i < n => AccountMeta(Address(i), true, false))
  }

  /** Fee payer and program are the first of the accounts, which all sign. */
  function SelfCall(accounts: seq<AccountMeta>): (r: Request)
    requires accounts != []
  {
    Request(accounts[0].pubkey, accounts[0].pubkey, accounts, [], accounts[0].pubkey)
  }

  lemma {:induction false} SelfCallKeys(s: seq<AccountMeta>)
    requires s != []
    ensures Keys(Mentions(SelfCall(s))) == Keys(s)
  {
    var ms := Mentions(SelfCall(s));
    forall i | 0 <= i < |ms| ensures ms[i].pubkey in Keys(s) {
      assert ms[i].pubkey == if 0 < i <= |s| then s[i - 1].pubkey else s[0].pubkey;
    }
    forall i | 0 <= i < |s| ensures s[i].pubkey in Keys(ms) {
      assert ms[i + 1] == s[i];
    }
  }

  lemma {:induction false} SelfCallCounts(s: seq<AccountMeta>)
    requires s != [] && Distinct(s) && forall i :: 0 <= i < |s| ==> s[i].isSigner
    ensures AccountCount(SelfCall(s)) == |s| && SignerCount(SelfCall(s)) == |s|
  {
    var ms := Mentions(SelfCall(s));
    SelfCallKeys(s);
    DistinctCount(s);
    forall k | k in Keys(s) ensures SignerIn(ms, k) {
      var i :| 0 <= i < |s| && s[i].pubkey == k;
      assert ms[i + 1] == s[i];
    }
    assert SignerSet(ms) == Keys(s);
  }

  lemma {:induction false} Misread(r: Request)
    requires ValidRequest(r) && AccountCount(r) <= 0xFFFF && |r.accounts| <= 0xFFFF && |r.data| <= 0xFFFF
    requires SignerCount(r) > 255
    ensures Compile(r).Message? && Parse(Compile(r).bytes).Some? && !Faithful(Parse(Compile(r).bytes).value, r)
  {
    LayoutCounts(r);
    LayoutValid(r);
    CompiledFaithfully(r);
  }

  /** The failure is real: 256 different signers compile without an error, and the message read
      back is not what was asked. */
  lemma {:induction false} CrowdMisread()
    ensures
      var r := SelfCall(Crowd(256));
      ValidRequest(r) && Compile(r).Message? && Parse(Compile(r).bytes).Some? && !Faithful(Parse(Compile(r).bytes).value, r)
  {
    CrowdOf(256);
  }

  lemma {:induction false} CrowdOf(n: nat)
    requires n == 256
    ensures
      var r := SelfCall(Crowd(n));
      ValidRequest(r) && Compile(r).Message? && Parse(Compile(r).bytes).Some? && !Faithful(Parse(Compile(r).bytes).value, r)
  {
    var s := Crowd(n);
    SelfCallCounts(s);
    CrowdValid(n);
    Misread(SelfCall(s));
  }

  lemma {:induction false} CrowdValid(n: nat)
    requires 0 < n <= 256
    ensures ValidRequest(SelfCall(Crowd(n)))
  {
    var s := Crowd(n);
    forall i | 0 <= i < n ensures ValidKey(s[i].pubkey) {
      assert s[i].pubkey == Address(i);
    }
  }
}
