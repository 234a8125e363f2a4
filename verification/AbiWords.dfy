/** 32-byte ABI words: elementary values and their decoders (chain/abi.go). */
module AbiWords {
  import opened Options
  import opened Sequences
  import opened Numerals
  import opened AbiTypes

  /** An argument after text conversion: hex strings are bytes, numeric strings are numbers. */
  datatype Arg = Blob(bytes: seq<byte>) | Flag(b: bool) | Num(v: int) | List(items: seq<Arg>)

  /** `Fail` is an error return, `Crash` an out-of-range slice. */
  datatype Result<+T> = Ok(value: T) | Fail | Crash

  /** Big-endian, right-aligned in 32 bytes. */
  function Word(n: nat): (w: seq<byte>)
    ensures |w| == 32
  {
    var ds: seq<byte> := Digits(n, 256);
    if |ds| <= 32 then Zeros(32 - |ds|) + ds else ds[|ds| - 32..]
  }

  function Zeros(k: nat): (z: seq<byte>)
    ensures |z| == k && forall i :: 0 <= i < k ==> z[i] == 0
  {
    seq(k, _ => 0)
  }

  function Pow2(k: nat): (p: int)
    ensures p > 0
  {
    Power(2, k)
  }

  lemma {:induction false} Pow256(k: nat)
    ensures Power(256, k) == Pow2(8 * k)
  {
    if k > 0 {
      Pow256(k - 1);
      PowerAdd(2, 8, 8 * (k - 1));
      assert Power(2, 8) == 256;
    }
  }

  lemma {:induction false} ValueOfWord(n: nat)
    requires n < Pow2(256)
    ensures Value(Word(n), 256) == n
  {
    Pow256(32);
    DigitsLength(n, 256, 32);
    ShortWord(n);
  }

  lemma {:induction false} ShortWord(n: nat)
    requires |Digits(n, 256)| <= 32
    ensures Value(Word(n), 256) == n
  {
    var ds := Digits(n, 256);
    assert Word(n) == Repeat(0, 32 - |ds|) + ds;
    LeadingZeros(32 - |ds|, ds, 256);
    ValueOfDigits(n, 256);
  }

  lemma {:induction false} Pow2Monotone(i: nat, j: nat)
    requires i <= j
    ensures Pow2(i) <= Pow2(j)
  {
    PowerMonotone(2, i, j);
  }

  // ----- elementary types -----

  /** common.BytesToAddress: the last 20 bytes, padded on the left. */
  function Fit20(b: seq<byte>): (r: seq<byte>)
    ensures |r| == 20
    ensures |b| < 20 ==> AllZero(r[..20 - |b|]) && r[20 - |b|..] == b
    ensures |b| >= 20 ==> r == b[|b| - 20..]
    ensures |b| == 20 ==> r == b
  {
    if |b| > 20 then b[|b| - 20..] else Zeros(20 - |b|) + b
  }

  function EncodeUint(bits: nat, a: Arg): (r: Result<seq<byte>>) {
    if !a.Num? || a.v < 0 || a.v >= Pow2(bits) then Fail else Ok(Word(a.v))
  }

  function EncodeInt256(v: int): (r: Result<seq<byte>>) {
    if v >= Pow2(255) || v < -Pow2(255) then Fail
    else if v >= 0 then Ok(Word(v))
    else
      Ok(Word(Pow2(256) + v))
  }

  function EncodeInt(bits: nat, a: Arg): (r: Result<seq<byte>>)
    requires bits > 0
  {
    if !a.Num? || a.v >= Pow2(bits - 1) || a.v < -Pow2(bits - 1) then Fail else EncodeInt256(a.v)
  }

  /** The static single-word types, by type; sizes are validated as the source does. */
  function EncodeWord(t: Ty, a: Arg): (r: Result<seq<byte>>)
    ensures r.Ok? ==> |r.value| == 32
  {
    match t
    case Address => if a.Blob? then Ok(Zeros(12) + Fit20(a.bytes)) else Fail
    case Bool => if a.Flag? then Ok(Word(if a.b then 1 else 0)) else Fail
    case Uint(bits) => if bits == 0 || bits > 256 || bits % 8 != 0 then Fail else EncodeUint(bits, a)
    case Int(bits) => if bits == 0 || bits > 256 || bits % 8 != 0 then Fail else EncodeInt(bits, a)
    case FixedBytes(n) =>
      if n == 0 || n > 32 || !a.Blob? || |a.bytes| > n then Fail else Ok(a.bytes + Zeros(32 - |a.bytes|))
    case _ => Fail
  }

  function Padding(n: nat): (r: nat)
    ensures (n + r) % 32 == 0 && r < 32
  {
    if n % 32 == 0 then 0 else 32 - n % 32
  }

  /** Length word, data, zero padding to a 32-byte boundary. */
  function EncodeBlob(a: Arg): (r: Result<seq<byte>>) {
    if !a.Blob? then Fail
    else
      Ok(Word(|a.bytes|) + a.bytes + Zeros(Padding(|a.bytes|)))
  }

  // ----- which arguments are accepted, and what comes back -----

  predicate WordType(t: Ty) { Elementary(t) && !Dynamic(t) }

  predicate AcceptsWord(t: Ty, a: Arg) {
    match t
    case Address => a.Blob?
    case Bool => a.Flag?
    case Uint(bits) => a.Num? && 0 <= a.v < Pow2(bits)
    case Int(bits) => bits > 0 && a.Num? && -Pow2(bits - 1) <= a.v < Pow2(bits - 1)
    case FixedBytes(n) => a.Blob? && |a.bytes| <= n
    case _ => false
  }

  /** The value a reader sees: addresses cut or padded to 20 bytes, bytesN padded to N. */
  function NormWord(t: Ty, a: Arg): (r: Arg) {
    match t
    case Address => if a.Blob? then Blob(Fit20(a.bytes)) else a
    case FixedBytes(n) => if a.Blob? && |a.bytes| <= n then Blob(a.bytes + Zeros(n - |a.bytes|)) else a
    case _ => a
  }

  predicate AllZero(b: seq<byte>) { forall i :: 0 <= i < |b| ==> b[i] == 0 }

  /** A reader that refuses every word but the one canonical word of a value: padding must be zero
      and numbers must be in the range of their type. */
  function DecodeWord(t: Ty, w: seq<byte>): (r: Option<Arg>)
    requires |w| >= 32
  {
    var v: int := Value(w[..32], 256);
    match t
    case Address => if AllZero(w[..12]) then Some(Blob(w[12..32])) else None
    case Bool => if v <= 1 then Some(Flag(v == 1)) else None
    case Uint(bits) => if v < Pow2(bits) then Some(Num(v)) else None
    case Int(bits) =>
      var n := if v < Pow2(255) then v else v - Pow2(256);
      if bits > 0 && -Pow2(bits - 1) <= n < Pow2(bits - 1) then Some(Num(n)) else None
    case FixedBytes(n) => if n <= 32 && AllZero(w[n..32]) then Some(Blob(w[..n])) else None
    case _ => None
  }

  lemma {:induction false} EncodeWordAccepts(t: Ty, a: Arg)
    requires WellFormed(t) && WordType(t)
    ensures EncodeWord(t, a).Ok? <==> AcceptsWord(t, a)
    ensures !EncodeWord(t, a).Crash?
  {
    if t.Int? {
      Pow2Monotone(t.bits - 1, 255);
    }
  }

  lemma {:induction false} DecodeUintBack(bits: nat, v: nat, rest: seq<byte>)
    requires bits <= 256 && v < Pow2(bits)
    ensures Value((Word(v) + rest)[..32], 256) == v
  {
    Pow2Monotone(bits, 256);
    ValueOfWord(v);
    assert (Word(v) + rest)[..32] == Word(v);
  }

  lemma {:induction false} DecodeIntBack(bits: nat, v: int, rest: seq<byte>)
    requires 0 < bits <= 256 && -Pow2(bits - 1) <= v < Pow2(bits - 1)
    ensures EncodeInt256(v).Ok?
    ensures DecodeWord(Int(bits), EncodeInt256(v).value + rest) == Some(Num(v))
  {
    Pow2Monotone(bits - 1, 255);
    DecodeUintBack(256, if v >= 0 then v else Pow2(256) + v, rest);
  }

  /** Every accepted single-word argument is read back, two's complement included. */
  lemma {:induction false} DecodeWordBack(t: Ty, a: Arg, rest: seq<byte>)
    requires WellFormed(t) && WordType(t) && AcceptsWord(t, a)
    ensures EncodeWord(t, a).Ok?
    ensures DecodeWord(t, EncodeWord(t, a).value + rest) == Some(NormWord(t, a))
  {
    EncodeWordAccepts(t, a);
    var w := EncodeWord(t, a).value;
    match t
    case Address =>
      assert (w + rest)[12..32] == Fit20(a.bytes) && (w + rest)[..12] == Zeros(12);
    case Bool =>
      DecodeUintBack(8, if a.b then 1 else 0, rest) by { assert Pow2(8) > 1 by { assert Power(2, 8) == 256; } }
    case Uint(bits) => DecodeUintBack(bits, a.v, rest);
    case Int(bits) => DecodeIntBack(bits, a.v, rest);
    case FixedBytes(n) =>
      assert (w + rest)[..n] == a.bytes + Zeros(n - |a.bytes|);
      assert (w + rest)[n..32] == Zeros(32 - n);
  }
}
