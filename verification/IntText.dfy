/** Integers and byte strings as text: what `big.Int.String`, `big.Int.SetString` and the hex
    package write and read. */
module IntText {
  import opened Options
  import opened Sequences
  import opened Numerals

  // ----- decimal -----

  function DigitChar(d: nat): (c: char)
    requires d < 10
  {
    ('0' as int + d) as char
  }

  function Decimal(n: nat): (s: string)
    ensures n > 0 ==> s != []
    ensures forall i :: 0 <= i < |s| ==> '0' <= s[i] <= '9'
  {
    var ds := Digits(n, 10);
    seq(|ds|, i requires 0 <= i < |ds| => DigitChar(ds[i]))
  }

  predicate AllDigits(s: string) {
    s != [] && forall i :: 0 <= i < |s| ==> '0' <= s[i] <= '9'
  }

  function Number(s: string): (n: nat)
    requires AllDigits(s)
  {
    Value(seq(|s|, i requires 0 <= i < |s| => s[i] as int - '0' as int), 10)
  }

  lemma {:induction false} NumberOfDecimal(n: nat)
    requires n > 0
    ensures AllDigits(Decimal(n)) && Number(Decimal(n)) == n
  {
    var s := Decimal(n);
    assert seq(|s|, i requires 0 <= i < |s| => s[i] as int - '0' as int) == Digits(n, 10);
    ValueOfDigits(n, 10);
  }

  /** Splits off an optional sign. */
  function Unsigned(s: string): (digits: string) {
    if s != [] && (s[0] == '+' || s[0] == '-') then s[1..] else s
  }

  function WithSign(s: string, n: int): (v: int) { if s != [] && s[0] == '-' then -n else n }

  /** SetString with base 10: an optional sign and at least one digit, nothing else. */
  function ParseDecimal(s: string): (r: Option<int>) {
    if AllDigits(Unsigned(s)) then Some(WithSign(s, Number(Unsigned(s)))) else None
  }

  /** String: a minus sign where needed and no leading zeros. */
  function Show(n: int): (s: string)
    ensures s != []
  {
    if n < 0 then "-" + Decimal(-n) else if n == 0 then "0" else Decimal(n)
  }

  lemma {:induction false} SingleDigit(s: string)
    requires |s| == 1 && AllDigits(s)
    ensures Number(s) == s[0] as int - '0' as int
  {
    var ds := seq(|s|, i requires 0 <= i < |s| => s[i] as int - '0' as int);
    assert ds[..0] == [];
    assert Value(ds[..0], 10) == 0;
  }

  lemma {:induction false} ParsePlain(s: string)
    requires AllDigits(s)
    ensures ParseDecimal(s) == Some(Number(s))
  {
    assert '0' <= s[0] <= '9';
  }

  lemma {:induction false} ParseMinus(s: string)
    requires AllDigits(s)
    ensures ParseDecimal("-" + s) == Some(-(Number(s) as int))
  {
    assert ("-" + s)[1..] == s;
  }

  lemma {:induction false} ParseDigits(d: string, n: nat)
    requires AllDigits(d) && Number(d) == n
    ensures ParseDecimal(d) == Some(n) && ParseDecimal("-" + d) == Some(-(n as int))
  {
    ParsePlain(d);
    ParseMinus(d);
  }

  /** A plus sign is read over; a second sign, or none of the digits, is an error. */
  lemma {:induction false} ParsePlus(s: string)
    ensures ParseDecimal("+" + s) == if AllDigits(s) then Some(Number(s)) else None
  {
    assert ("+" + s)[1..] == s;
  }

  lemma {:induction false} ParseText(s: string, d: string, n: int, m: nat)
    requires AllDigits(d) && Number(d) == m
    requires (s == d && n == m) || (s == "-" + d && n == -(m as int))
    ensures ParseDecimal(s) == Some(n)
  {
    ParseDigits(d, m);
  }

  /** Every integer is read back from its text. */
  lemma {:induction false} ParseShow(n: int)
    ensures ParseDecimal(Show(n)) == Some(n)
  {
    if n == 0 {
      ParseZero();
    } else {
      var m := if n < 0 then -n else n;
      NumberOfDecimal(m);
      ParseText(Show(n), Decimal(m), n, m);
    }
  }

  lemma {:induction false} ParseZero()
    ensures ParseDecimal("0") == Some(0)
  {
    SingleDigit("0");
    ParsePlain("0");
  }

  // ----- hexadecimal -----

  /** The value of a hex digit in either case; 16 for any other character. */
  function HexDigit(c: char): (d: nat)
    ensures d <= 16
  {
    if '0' <= c <= '9' then c as int - '0' as int
    else if 'a' <= c <= 'f' then c as int - 'a' as int + 10
    else if 'A' <= c <= 'F' then c as int - 'A' as int + 10
    else 16
  }

  function HexChar(d: nat): (c: char)
    requires d < 16
    ensures HexDigit(c) == d && c != 'x'
  {
    if d < 10 then ('0' as int + d) as char else ('a' as int + d - 10) as char
  }

  const HEX_LOWER := "0123456789abcdef"
  const HEX_UPPER := "0123456789ABCDEF"

  /** The two spellings of a hex digit. */
  lemma {:induction false} HexDigitExactly(c: char, d: nat)
    requires d < 16
    ensures HexDigit(c) == d <==> c == HEX_LOWER[d] || c == HEX_UPPER[d]
  {
  }

  predicate AllHex(s: string) { s != [] && forall i :: 0 <= i < |s| ==> HexDigit(s[i]) < 16 }

  function HexNumber(s: string): (n: nat)
    requires AllHex(s)
  {
    Value(seq(|s|, i requires 0 <= i < |s| => HexDigit(s[i])), 16)
  }

  /** SetString with base 16, which also takes a sign. */
  function ParseHex(s: string): (r: Option<int>) {
    if AllHex(Unsigned(s)) then Some(WithSign(s, HexNumber(Unsigned(s)))) else None
  }

  /** Text(16), as a node writes numbers after its "0x". */
  function HexText(n: nat): (s: string)
    ensures s != []
  {
    if n == 0 then "0" else seq(|Digits(n, 16)|, i requires 0 <= i < |Digits(n, 16)| => HexChar(Digits(n, 16)[i]))
  }

  lemma {:induction false} HexZero()
    ensures AllHex("0") && HexNumber("0") == 0
  {
    var s := "0";
    var ds := seq(|s|, i requires 0 <= i < |s| => HexDigit(s[i]));
    assert ds[..0] == [];
    assert Value(ds[..0], 16) == 0;
  }

  lemma {:induction false} HexNumberText(n: nat)
    requires n > 0
    ensures AllHex(HexText(n)) && HexNumber(HexText(n)) == n
  {
    var s := HexText(n);
    assert seq(|s|, i requires 0 <= i < |s| => HexDigit(s[i])) == Digits(n, 16);
    ValueOfDigits(n, 16);
  }

  lemma {:induction false} ParseHexPlain(s: string)
    requires AllHex(s)
    ensures ParseHex(s) == Some(HexNumber(s))
  {
    assert HexDigit(s[0]) < 16;
  }

  /** Every number a node spells is read as that number. */
  lemma {:induction false} ParseHexText(n: nat)
    ensures ParseHex(HexText(n)) == Some(n)
    ensures Trim0x("0x" + HexText(n)) == HexText(n)
  {
    if n == 0 {
      HexZero();
    } else {
      HexNumberText(n);
    }
    ParseHexPlain(HexText(n));
    TrimPrefix(HexText(n));
  }

  lemma {:induction false} TrimPrefix(s: string)
    ensures Trim0x("0x" + s) == s
  {
    assert ("0x" + s)[2..] == s;
  }

  predicate StartsWith0x(s: string) { |s| >= 2 && s[0] == '0' && s[1] == 'x' }

  /** TrimPrefix(s, "0x"). */
  function Trim0x(s: string): (r: string) { if StartsWith0x(s) then s[2..] else s }

  /** hex.EncodeToString. */
  function HexEncode(b: seq<byte>): (s: string)
    ensures |s| == 2 * |b|
    ensures forall i :: 0 <= i < |s| ==> s[i] != 'x'
  {
    if b == [] then [] else [HexChar(b[0] / 16), HexChar(b[0] % 16)] + HexEncode(b[1..])
  }

  /** The bytes hex.DecodeString has decoded when it stops: at the end, or at the first bad pair. */
  function HexRead(s: string): (b: seq<byte>)
    ensures 2 * |b| <= |s|
  {
    if |s| < 2 || HexDigit(s[0]) == 16 || HexDigit(s[1]) == 16 then []
    else [HexDigit(s[0]) * 16 + HexDigit(s[1])] + HexRead(s[2..])
  }

  /** hex.DecodeString: all pairs must be good. */
  function HexDecode(s: string): (r: Option<seq<byte>>) {
    if 2 * |HexRead(s)| == |s| then Some(HexRead(s)) else None
  }

  /** The hex digits at 2i and 2i + 1 spell the byte. */
  predicate PairIs(s: string, i: nat, v: byte)
    requires 2 * i + 1 < |s|
  {
    HexDigit(s[2 * i]) < 16 && HexDigit(s[2 * i + 1]) < 16 && HexDigit(s[2 * i]) * 16 + HexDigit(s[2 * i + 1]) == v
  }

  /** Reading goes pair by pair, in either case. */
  lemma {:induction false} HexReadPairs(s: string, b: seq<byte>)
    requires |s| == 2 * |b| && forall i :: 0 <= i < |b| ==> PairIs(s, i, b[i])
    ensures HexRead(s) == b
  {
    if b != [] {
      var t, c := s[2..], b[1..];
      forall i | 0 <= i < |c| ensures PairIs(t, i, c[i]) {
        PairShift(s, i, b[i + 1]);
      }
      HexReadPairs(t, c);
      assert PairIs(s, 0, b[0]);
      assert [b[0]] + c == b;
    }
  }

  lemma {:induction false} PairShift(s: string, i: nat, v: byte)
    requires 2 * i + 3 < |s| && PairIs(s, i + 1, v)
    ensures PairIs(s[2..], i, v)
  {
    assert s[2..][2 * i] == s[2 * (i + 1)] && s[2..][2 * i + 1] == s[2 * (i + 1) + 1];
  }

  lemma {:induction false} ReadPair(s: string, i: nat)
    requires i < |HexRead(s)|
    ensures PairIs(s, i, HexRead(s)[i])
  {
    if i > 0 {
      ReadPair(s[2..], i - 1);
      assert s[2..][2 * (i - 1)] == s[2 * i] && s[2..][2 * (i - 1) + 1] == s[2 * i + 1];
    }
  }

  /** What is decoded: two hex digits for every byte, in either case, and nothing else. */
  lemma {:induction false} HexDecodeExactly(s: string, b: seq<byte>)
    ensures HexDecode(s) == Some(b) <==> |s| == 2 * |b| && forall i :: 0 <= i < |b| ==> PairIs(s, i, b[i])
  {
    if |s| == 2 * |b| {
      if forall i :: 0 <= i < |b| ==> PairIs(s, i, b[i]) {
        HexReadPairs(s, b);
      }
      if HexDecode(s) == Some(b) {
        forall i | 0 <= i < |b| ensures PairIs(s, i, b[i]) {
          ReadPair(s, i);
        }
      }
    }
  }

  lemma {:induction false} HexReadBack(b: seq<byte>)
    ensures HexRead(HexEncode(b)) == b
  {
    if b != [] {
      HexReadBack(b[1..]);
      var s := HexEncode(b);
      assert s[2..] == HexEncode(b[1..]);
      assert [b[0]] + b[1..] == b;
    }
  }

  /** Every byte string is read back from its text, and the text is never mistaken for one with a
      prefix. */
  lemma {:induction false} HexBack(b: seq<byte>)
    ensures Trim0x(HexEncode(b)) == HexEncode(b)
    ensures HexDecode(HexEncode(b)) == Some(b)
    ensures HexEncode(b) == [] <==> b == []
  {
    HexReadBack(b);
  }
}
